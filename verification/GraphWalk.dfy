/** The module-graph walk that feeds the type checker, on values. Specifiers are
    interned: only their equality matters to the walk. */
module GraphWalk {
  import opened Basics

  type Url = nat

  datatype MediaType =
    | JavaScript | Jsx | Mjs | Cjs
    | TypeScript | Mts | Cts | Tsx | Dts | Dmts | Dcts
    | Json | Jsonc | Json5 | Wasm | Css | Html | Markdown | SourceMap | Sql | Unknown

  predicate IsDeclaration(m: MediaType) {
    m.Dts? || m.Dmts? || m.Dcts?
  }

  /** A resolved dependency, a resolution error (with the diagnostic it yields, if
      any), or nothing. */
  datatype Resolution = NoResolution | Resolved(url: Url) | ResolutionFailed(diagnostic: Option<string>)

  datatype Dependency = Dependency(maybeType: Resolution, maybeCode: Resolution, isDynamic: bool)

  datatype Kind = JsModule | WasmModule | JsonModule | NpmModule | ExternalModule | NodeModule

  /** `mediaType` is the one its own kind uses: the parsed type of a script, the
      type read off the specifier of an external file. `checkJs` says whether the
      options or a pragma make a plain script checkable. */
  datatype Module = Module(
    kind: Kind,
    mediaType: MediaType,
    checkJs: bool,
    skipLibCheck: bool,
    text: string,
    dependencies: seq<Dependency>,
    typesDependency: Option<Url>)

  datatype Slot = Loaded(m: Module) | Failed(isDiagnosable: bool)

  datatype Graph = Graph(redirects: map<Url, Url>, slots: map<Url, Slot>)

  datatype Diagnostic =
    | MissingModule(specifier: Url)
    | MissingConfigImport(specifier: Url)
    | Unresolvable(message: string)

  datatype Token = SpecifierToken(url: Url) | TextToken(text: string) | HeaderToken(header: string)

  datatype Item = Item(url: Url, isDynamic: bool)

  function Resolve(g: Graph, u: Url): Url {
    if u in g.redirects then g.redirects[u] else u
  }

  predicate IsModule(g: Graph, u: Url) {
    u in g.slots && g.slots[u].Loaded?
  }

  predicate IsDiagnosable(g: Graph, u: Url) {
    u in g.slots && g.slots[u].Failed? && g.slots[u].isDiagnosable
  }

  // ---------------------------------------------------------------------------
  // What one module contributes
  // ---------------------------------------------------------------------------

  function TargetOf(g: Graph, r: Resolution, isDynamic: bool): seq<Item> {
    if r.Resolved? then [Item(Resolve(g, r.url), isDynamic)] else []
  }

  function DependencyTargets(g: Graph, deps: seq<Dependency>): seq<Item> {
    if deps == [] then [] else
    TargetOf(g, deps[0].maybeType, deps[0].isDynamic) + TargetOf(g, deps[0].maybeCode, deps[0].isDynamic)
    + DependencyTargets(g, deps[1..])
  }

  /** A declaration module whose options skip library checks is not followed. */
  predicate IsCut(m: Module) {
    m.kind == JsModule && IsDeclaration(m.mediaType) && m.skipLibCheck
  }

  /** The specifiers a module leads to, in walking order. */
  function Targets(g: Graph, m: Module): seq<Item> {
    if IsCut(m) then []
    else if m.kind == JsModule then
      DependencyTargets(g, m.dependencies) +
      (if m.typesDependency.Some? then [Item(Resolve(g, m.typesDependency.value), false)] else [])
    else if m.kind == WasmModule then DependencyTargets(g, m.dependencies)
    else []
  }

  /** The code error counts only when there is no type resolution. */
  function DependencyDiagnostics(d: Dependency): seq<Diagnostic> {
    var r := if d.maybeType.NoResolution? then d.maybeCode else d.maybeType;
    if !d.isDynamic && r.ResolutionFailed? && r.diagnostic.Some? then [Unresolvable(r.diagnostic.value)] else []
  }

  function AllDependencyDiagnostics(deps: seq<Dependency>): seq<Diagnostic> {
    if deps == [] then [] else DependencyDiagnostics(deps[0]) + AllDependencyDiagnostics(deps[1..])
  }

  function ModuleDiagnostics(m: Module): seq<Diagnostic> {
    if !IsCut(m) && (m.kind == JsModule || m.kind == WasmModule) then AllDependencyDiagnostics(m.dependencies) else []
  }

  /** The type under which a module becomes a root of the check, if it does. */
  function CheckEntry(m: Module): Option<MediaType> {
    match m.kind
    case JsModule =>
      (match m.mediaType
       case TypeScript | Tsx | Mts | Cts | Dts | Dmts | Dcts => Some(m.mediaType)
       case JavaScript | Mjs | Cjs | Jsx => if m.checkJs then Some(m.mediaType) else None
       case _ => None)
    case WasmModule => Some(Dmts)
    case _ => None
  }

  function RootsOf(u: Url, m: Module): seq<(Url, MediaType)> {
    if CheckEntry(m).Some? then [(u, CheckEntry(m).value)]
    else if m.kind == ExternalModule && IsDeclaration(m.mediaType) then [(u, m.mediaType)]
    else []
  }

  function HashOf(u: Url, m: Module): seq<Token> {
    match m.kind
    case JsModule => if CheckEntry(m).Some? then [SpecifierToken(u), TextToken(m.text)] else []
    case JsonModule | WasmModule => [SpecifierToken(u), TextToken(m.text)]
    case ExternalModule => [SpecifierToken(u)]
    case NpmModule | NodeModule => []
  }

  // ---------------------------------------------------------------------------
  // The walk
  // ---------------------------------------------------------------------------

  /** `visited` logs the modules expanded so far, in order. */
  datatype Walker = Walker(
    seen: set<Url>,
    pending: seq<Item>,
    hasSeenNodeBuiltin: bool,
    roots: seq<(Url, MediaType)>,
    missing: seq<Diagnostic>,
    hashed: seq<Token>,
    visited: seq<Url>)

  /** What handling a target adds to the queue. A static target is marked seen when
      it is queued, a dynamic one only when it is expanded. */
  function Queued(seen: set<Url>, t: Item): seq<Item> {
    if t.url in seen then [] else [t]
  }

  function Marked(seen: set<Url>, t: Item): set<Url> {
    if t.isDynamic then seen else seen + {t.url}
  }

  function QueuedAll(seen: set<Url>, ts: seq<Item>): seq<Item>
    decreases |ts|
  {
    if ts == [] then [] else Queued(seen, ts[0]) + QueuedAll(Marked(seen, ts[0]), ts[1..])
  }

  function MarkedAll(seen: set<Url>, ts: seq<Item>): set<Url>
    decreases |ts|
  {
    if ts == [] then seen else MarkedAll(Marked(seen, ts[0]), ts[1..])
  }

  function Visit(g: Graph, w: Walker, u: Url, m: Module): Walker {
    var seen, ts := w.seen + {u}, Targets(g, m);
    Walker(
      MarkedAll(seen, ts),
      w.pending + QueuedAll(seen, ts),
      w.hasSeenNodeBuiltin || m.kind == NodeModule,
      w.roots + RootsOf(u, m),
      w.missing + ModuleDiagnostics(m),
      w.hashed + HashOf(u, m),
      w.visited + [u])
  }

  /** One iteration of the queue loop. */
  function Pop(g: Graph, w: Walker): Walker
    requires w.pending != []
  {
    var item, rest := w.pending[0], w.(pending := w.pending[1..]);
    if IsModule(g, item.url) then
      if item.isDynamic && item.url in w.seen then rest
      else Visit(g, rest, item.url, g.slots[item.url].m)
    else if !item.isDynamic && IsDiagnosable(g, item.url) then
      rest.(missing := w.missing + [MissingModule(item.url)])
    else rest
  }

  // ---------------------------------------------------------------------------
  // Facts about handling a list of targets
  // ---------------------------------------------------------------------------

  lemma {:induction false} MarkedAllFacts(seen: set<Url>, ts: seq<Item>)
    ensures forall u :: u in MarkedAll(seen, ts) <==> u in seen || Item(u, false) in ts
    decreases |ts|
  {
    if ts != [] {
      MarkedAllFacts(Marked(seen, ts[0]), ts[1..]);
      assert ts == [ts[0]] + ts[1..];
    }
  }

  /** Queue entries come from the targets; a static one is queued exactly when its
      specifier is new; a dynamic one is queued unless its specifier is marked. */
  lemma {:induction false} QueuedAllFacts(seen: set<Url>, ts: seq<Item>)
    ensures forall x :: x in QueuedAll(seen, ts) ==> x in ts
    ensures forall u :: Item(u, false) in QueuedAll(seen, ts) <==> Item(u, false) in ts && u !in seen
    ensures forall u :: Item(u, true) in ts ==> u in MarkedAll(seen, ts) || Item(u, true) in QueuedAll(seen, ts)
    decreases |ts|
  {
    if ts != [] {
      var seen', rest := Marked(seen, ts[0]), ts[1..];
      QueuedAllFacts(seen', rest);
      MarkedAllFacts(seen', rest);
      assert ts == [ts[0]] + rest;
      assert QueuedAll(seen, ts) == Queued(seen, ts[0]) + QueuedAll(seen', rest);
    }
  }

  /** No specifier is queued statically twice. */
  ghost predicate StaticOnce(pending: seq<Item>) {
    forall i, j :: 0 <= i < j < |pending| && !pending[i].isDynamic ==> pending[i] != pending[j]
  }

  lemma {:induction false} QueuedAllStaticOnce(seen: set<Url>, ts: seq<Item>)
    ensures StaticOnce(QueuedAll(seen, ts))
    decreases |ts|
  {
    if ts != [] {
      var seen', rest := Marked(seen, ts[0]), ts[1..];
      QueuedAllStaticOnce(seen', rest);
      QueuedAllFacts(seen', rest);
      assert QueuedAll(seen, ts) == Queued(seen, ts[0]) + QueuedAll(seen', rest);
      if !ts[0].isDynamic && ts[0].url !in seen {
        assert ts[0] == Item(ts[0].url, false) && ts[0] !in QueuedAll(seen', rest);
      }
    }
  }

  lemma StaticOnceConcat(a: seq<Item>, b: seq<Item>)
    requires StaticOnce(a) && StaticOnce(b)
    requires forall u :: Item(u, false) in a ==> Item(u, false) !in b
    ensures StaticOnce(a + b)
  {
    var c := a + b;
    forall i, j | 0 <= i < j < |c| && !c[i].isDynamic
      ensures c[i] != c[j]
    {
      if i < |a| <= j {
        assert c[i] == Item(c[i].url, false) && c[i] in a && c[j] in b;
      }
    }
  }

  // ---------------------------------------------------------------------------
  // What every step of the walk keeps. `starts` are the resolved specifiers the
  // walk was asked for, `consumed` the npm config imports, marked seen unwalked.
  // ---------------------------------------------------------------------------

  ghost predicate VisitedOk(g: Graph, consumed: set<Url>, w: Walker) {
    && (forall i, j :: 0 <= i < j < |w.visited| ==> w.visited[i] != w.visited[j])
    && (forall u :: u in w.visited ==> u in w.seen && u !in consumed && IsModule(g, u))
  }

  ghost predicate PendingOk(consumed: set<Url>, w: Walker) {
    && StaticOnce(w.pending)
    && (forall u :: Item(u, false) in w.pending ==> u in w.seen && u !in consumed && u !in w.visited)
  }

  ghost predicate SeenOk(g: Graph, starts: set<Url>, consumed: set<Url>, w: Walker) {
    && starts <= w.seen && consumed <= w.seen
    && (forall u :: u in w.seen && u !in consumed && IsModule(g, u) ==> u in w.visited || Item(u, false) in w.pending)
  }

  /** `t` is reached from `u`, a module, over an edge of the given kind. */
  predicate Edge(g: Graph, u: Url, t: Url, isDynamic: bool) {
    IsModule(g, u) && Item(t, isDynamic) in Targets(g, g.slots[u].m)
  }

  ghost predicate Closed(g: Graph, w: Walker) {
    forall u, t, d :: u in w.visited && Edge(g, u, t, d) ==>
      t in w.seen || (d && (Item(t, true) in w.pending || !IsModule(g, t)))
  }

  /** Some visited module has such an edge. */
  ghost predicate Reached(g: Graph, visited: seq<Url>, t: Url, isDynamic: bool) {
    exists u :: u in visited && Edge(g, u, t, isDynamic)
  }

  /** Nothing is queued, seen or visited without a reason. */
  ghost predicate Justified(g: Graph, starts: set<Url>, consumed: set<Url>, w: Walker) {
    && (forall x :: x in w.pending ==> x.url in starts || Reached(g, w.visited, x.url, x.isDynamic))
    && (forall u :: u in w.seen && u !in consumed ==>
          u in starts || Reached(g, w.visited, u, false) || u in w.visited)
    && (forall i :: 0 <= i < |w.visited| ==>
          || w.visited[i] in starts
          || Reached(g, w.visited[..i], w.visited[i], false) || Reached(g, w.visited[..i], w.visited[i], true))
  }

  /** One diagnostic, given or still queued, for each diagnosable specifier that was
      marked seen by the walk, and none for any other specifier. */
  ghost predicate Diagnosed(g: Graph, consumed: set<Url>, w: Walker) {
    forall u :: multiset(w.missing)[MissingModule(u)] ==
      if IsDiagnosable(g, u) && u in w.seen && u !in consumed && Item(u, false) !in w.pending then 1 else 0
  }

  ghost predicate Inv(g: Graph, starts: set<Url>, consumed: set<Url>, w: Walker) {
    && VisitedOk(g, consumed, w)
    && PendingOk(consumed, w)
    && SeenOk(g, starts, consumed, w)
    && Closed(g, w)
    && Justified(g, starts, consumed, w)
    && Diagnosed(g, consumed, w)
  }

  // ---------------------------------------------------------------------------
  // Popping an entry without visiting
  // ---------------------------------------------------------------------------

  /** The queue entry at the front is dropped rather than visited. */
  ghost predicate Drops(g: Graph, w: Walker) {
    w.pending != [] && (!IsModule(g, w.pending[0].url) || (w.pending[0].isDynamic && w.pending[0].url in w.seen))
  }

  lemma InTail(pending: seq<Item>, x: Item)
    requires pending != []
    ensures x in pending <==> x == pending[0] || x in pending[1..]
  {
    assert pending == [pending[0]] + pending[1..];
  }

  lemma StaticOnceTail(pending: seq<Item>)
    requires pending != [] && StaticOnce(pending)
    ensures StaticOnce(pending[1..])
    ensures !pending[0].isDynamic ==> pending[0] !in pending[1..]
  {
  }

  lemma DropKeepsQueue(g: Graph, starts: set<Url>, consumed: set<Url>, w: Walker)
    requires PendingOk(consumed, w) && SeenOk(g, starts, consumed, w) && Closed(g, w) && Drops(g, w)
    ensures PendingOk(consumed, Pop(g, w)) && SeenOk(g, starts, consumed, Pop(g, w)) && Closed(g, Pop(g, w))
  {
    StaticOnceTail(w.pending);
    forall x ensures x in w.pending <==> x == w.pending[0] || x in w.pending[1..] {
      InTail(w.pending, x);
    }
  }

  lemma DropKeepsReasons(g: Graph, starts: set<Url>, consumed: set<Url>, w: Walker)
    requires Justified(g, starts, consumed, w) && Drops(g, w)
    ensures Justified(g, starts, consumed, Pop(g, w))
  {
    forall x ensures x in w.pending <==> x == w.pending[0] || x in w.pending[1..] {
      InTail(w.pending, x);
    }
  }

  lemma DropKeepsDiagnosed(g: Graph, consumed: set<Url>, w: Walker)
    requires PendingOk(consumed, w) && Diagnosed(g, consumed, w) && Drops(g, w)
    ensures Diagnosed(g, consumed, Pop(g, w))
  {
    var w' := Pop(g, w);
    StaticOnceTail(w.pending);
    forall u
      ensures multiset(w'.missing)[MissingModule(u)] ==
        if IsDiagnosable(g, u) && u in w'.seen && u !in consumed && Item(u, false) !in w'.pending then 1 else 0
    {
      InTail(w.pending, Item(u, false));
    }
  }

  // ---------------------------------------------------------------------------
  // Visiting a module
  // ---------------------------------------------------------------------------

  ghost predicate Visits(g: Graph, w: Walker) {
    && w.pending != [] && IsModule(g, w.pending[0].url)
    && (w.pending[0].isDynamic ==> w.pending[0].url !in w.seen)
  }

  /** The visited module is new, and what its targets add to queue and marks. */
  lemma VisitFacts(g: Graph, starts: set<Url>, consumed: set<Url>, w: Walker)
    requires VisitedOk(g, consumed, w) && PendingOk(consumed, w) && SeenOk(g, starts, consumed, w) && Visits(g, w)
    ensures var u, w' := w.pending[0].url, Pop(g, w);
            var ts, seen := Targets(g, g.slots[u].m), w.seen + {u};
            && u !in w.visited && u !in consumed && Item(u, false) !in w.pending[1..]
            && w'.visited == w.visited + [u]
            && w'.pending == w.pending[1..] + QueuedAll(seen, ts)
            && (forall x :: x in w'.seen <==> x in seen || Item(x, false) in ts)
            && (forall x :: x in w'.pending <==> x in w.pending[1..] || x in QueuedAll(seen, ts))
            && (forall x :: x in QueuedAll(seen, ts) ==> x in ts)
            && (forall x :: Item(x, false) in QueuedAll(seen, ts) <==> Item(x, false) in ts && x !in seen)
            && (forall x :: Item(x, true) in ts ==> x in w'.seen || Item(x, true) in QueuedAll(seen, ts))
            && (forall x :: x in w.pending <==> x == w.pending[0] || x in w.pending[1..])
  {
    var u := w.pending[0].url;
    var ts, seen := Targets(g, g.slots[u].m), w.seen + {u};
    StaticOnceTail(w.pending);
    forall x ensures x in w.pending <==> x == w.pending[0] || x in w.pending[1..] {
      InTail(w.pending, x);
    }
    assert !w.pending[0].isDynamic ==> w.pending[0] == Item(u, false);
    MarkedAllFacts(seen, ts);
    QueuedAllFacts(seen, ts);
  }

  lemma VisitKeepsVisited(g: Graph, starts: set<Url>, consumed: set<Url>, w: Walker)
    requires VisitedOk(g, consumed, w) && PendingOk(consumed, w) && SeenOk(g, starts, consumed, w) && Visits(g, w)
    ensures VisitedOk(g, consumed, Pop(g, w))
  {
    VisitFacts(g, starts, consumed, w);
  }

  lemma VisitKeepsQueue(g: Graph, starts: set<Url>, consumed: set<Url>, w: Walker)
    requires VisitedOk(g, consumed, w) && PendingOk(consumed, w) && SeenOk(g, starts, consumed, w) && Visits(g, w)
    ensures PendingOk(consumed, Pop(g, w)) && SeenOk(g, starts, consumed, Pop(g, w))
  {
    VisitFacts(g, starts, consumed, w);
    var u := w.pending[0].url;
    var added := QueuedAll(w.seen + {u}, Targets(g, g.slots[u].m));
    StaticOnceTail(w.pending);
    QueuedAllStaticOnce(w.seen + {u}, Targets(g, g.slots[u].m));
    StaticOnceConcat(w.pending[1..], added);
  }

  lemma VisitKeepsClosed(g: Graph, starts: set<Url>, consumed: set<Url>, w: Walker)
    requires VisitedOk(g, consumed, w) && PendingOk(consumed, w) && SeenOk(g, starts, consumed, w) && Visits(g, w)
    requires Closed(g, w)
    ensures Closed(g, Pop(g, w))
  {
    VisitFacts(g, starts, consumed, w);
    var w' := Pop(g, w);
    forall v, t, d | v in w'.visited && Edge(g, v, t, d)
      ensures t in w'.seen || (d && (Item(t, true) in w'.pending || !IsModule(g, t)))
    {
      if v in w.visited {
        assert t in w.seen || (d && (Item(t, true) in w.pending || !IsModule(g, t)));
      }
    }
  }

  lemma ReachedLater(g: Graph, visited: seq<Url>, u: Url, t: Url, d: bool)
    requires Reached(g, visited, t, d)
    ensures Reached(g, visited + [u], t, d)
  {
    var v :| v in visited && Edge(g, v, t, d);
    assert v in visited + [u];
  }

  lemma VisitKeepsReasons(g: Graph, starts: set<Url>, consumed: set<Url>, w: Walker)
    requires VisitedOk(g, consumed, w) && PendingOk(consumed, w) && SeenOk(g, starts, consumed, w) && Visits(g, w)
    requires Justified(g, starts, consumed, w)
    ensures Justified(g, starts, consumed, Pop(g, w))
  {
    VisitFacts(g, starts, consumed, w);
    var u, w' := w.pending[0].url, Pop(g, w);
    assert u in w'.visited;
    forall x | x in w'.pending ensures x.url in starts || Reached(g, w'.visited, x.url, x.isDynamic) {
      if x in w.pending[1..] {
        if x.url !in starts { ReachedLater(g, w.visited, u, x.url, x.isDynamic); }
      } else {
        assert Edge(g, u, x.url, x.isDynamic);
      }
    }
    forall x | x in w'.seen && x !in consumed
      ensures x in starts || Reached(g, w'.visited, x, false) || x in w'.visited
    {
      if x in w.seen {
        if Reached(g, w.visited, x, false) { ReachedLater(g, w.visited, u, x, false); }
      } else if x != u {
        assert Edge(g, u, x, false);
      }
    }
    forall i | 0 <= i < |w'.visited|
      ensures || w'.visited[i] in starts
              || Reached(g, w'.visited[..i], w'.visited[i], false) || Reached(g, w'.visited[..i], w'.visited[i], true)
    {
      assert w'.visited[..i] == w.visited[..i];
      if i == |w.visited| {
        assert w.visited[..i] == w.visited && w.pending[0] in w.pending;
      }
    }
  }

  lemma {:induction false} NoMissingInDiagnostics(deps: seq<Dependency>, u: Url)
    ensures MissingModule(u) !in AllDependencyDiagnostics(deps)
  {
    if deps != [] {
      NoMissingInDiagnostics(deps[1..], u);
    }
  }

  lemma VisitKeepsDiagnosed(g: Graph, starts: set<Url>, consumed: set<Url>, w: Walker)
    requires VisitedOk(g, consumed, w) && PendingOk(consumed, w) && SeenOk(g, starts, consumed, w) && Visits(g, w)
    requires Diagnosed(g, consumed, w)
    ensures Diagnosed(g, consumed, Pop(g, w))
  {
    VisitFacts(g, starts, consumed, w);
    var w', m := Pop(g, w), g.slots[w.pending[0].url].m;
    forall x
      ensures multiset(w'.missing)[MissingModule(x)] ==
        if IsDiagnosable(g, x) && x in w'.seen && x !in consumed && Item(x, false) !in w'.pending then 1 else 0
    {
      NoMissingInDiagnostics(m.dependencies, x);
      assert multiset(w'.missing) == multiset(w.missing) + multiset(ModuleDiagnostics(m));
      assert MissingModule(x) !in multiset(ModuleDiagnostics(m));
    }
  }

  /** Every iteration of the queue loop keeps the whole invariant. */
  lemma PopKeepsInv(g: Graph, starts: set<Url>, consumed: set<Url>, w: Walker)
    requires Inv(g, starts, consumed, w) && w.pending != []
    ensures Inv(g, starts, consumed, Pop(g, w))
  {
    if Visits(g, w) {
      VisitKeepsVisited(g, starts, consumed, w);
      VisitKeepsQueue(g, starts, consumed, w);
      VisitKeepsClosed(g, starts, consumed, w);
      VisitKeepsReasons(g, starts, consumed, w);
      VisitKeepsDiagnosed(g, starts, consumed, w);
    } else {
      DropKeepsQueue(g, starts, consumed, w);
      DropKeepsReasons(g, starts, consumed, w);
      DropKeepsDiagnosed(g, consumed, w);
    }
  }

  // ---------------------------------------------------------------------------
  // The loop ends
  // ---------------------------------------------------------------------------

  ghost function Unvisited(g: Graph, w: Walker): set<Url> {
    set u | u in g.slots && IsModule(g, u) && u !in w.visited
  }

  lemma UnvisitedAfter(g: Graph, w: Walker, w': Walker, u: Url)
    requires IsModule(g, u) && u !in w.visited && w'.visited == w.visited + [u]
    ensures |Unvisited(g, w')| < |Unvisited(g, w)|
  {
    assert Unvisited(g, w) == Unvisited(g, w') + {u};
  }

  /** A visit leaves fewer modules unvisited; any other pop shortens the queue. */
  lemma PopDecreases(g: Graph, starts: set<Url>, consumed: set<Url>, w: Walker)
    requires Inv(g, starts, consumed, w) && w.pending != []
    ensures || |Unvisited(g, Pop(g, w))| < |Unvisited(g, w)|
            || (|Unvisited(g, Pop(g, w))| == |Unvisited(g, w)| && |Pop(g, w).pending| < |w.pending|)
  {
    if Visits(g, w) {
      VisitFacts(g, starts, consumed, w);
      UnvisitedAfter(g, w, Pop(g, w), w.pending[0].url);
    }
  }

  // ---------------------------------------------------------------------------
  // Starting a walk
  // ---------------------------------------------------------------------------

  function Start(w: Walker, u: Url): Walker {
    if u in w.seen then w else w.(seen := w.seen + {u}, pending := w.pending + [Item(u, false)])
  }

  /** How a config import parses and resolves: not an npm reference, an npm
      reference with its resolved file, or one that does not resolve. */
  datatype NpmReference = NotNpm | NpmFile(url: Url, mediaType: MediaType) | NpmUnresolved

  function Consume(w: Walker, u: Url, npm: NpmReference): Walker
    requires !npm.NotNpm?
  {
    if npm.NpmFile? then w.(seen := w.seen + {u}, roots := w.roots + [(npm.url, npm.mediaType)])
    else w.(seen := w.seen + {u}, missing := w.missing + [MissingConfigImport(u)])
  }

  lemma StartKeepsInv(g: Graph, starts: set<Url>, consumed: set<Url>, w: Walker, u: Url)
    requires Inv(g, starts, consumed, w)
    ensures Inv(g, starts + {u}, consumed, Start(w, u))
  {
    var w' := Start(w, u);
    if u !in w.seen {
      forall x ensures x in w'.pending <==> x in w.pending || x == Item(u, false) {
      }
      StaticOnceConcat(w.pending, [Item(u, false)]);
    }
  }

  lemma ConsumeKeepsInv(g: Graph, starts: set<Url>, consumed: set<Url>, w: Walker, u: Url, npm: NpmReference)
    requires Inv(g, starts, consumed, w) && u !in w.seen && !npm.NotNpm?
    ensures Inv(g, starts, consumed + {u}, Consume(w, u, npm))
  {
    forall x ensures multiset(Consume(w, u, npm).missing)[MissingModule(x)] == multiset(w.missing)[MissingModule(x)] {
    }
  }

  function NewWalker(header: seq<Token>): Walker {
    Walker({}, [], false, [], [], header, [])
  }

  lemma NewWalkerInv(g: Graph, header: seq<Token>)
    ensures Inv(g, {}, {}, NewWalker(header))
  {
  }

  // ---------------------------------------------------------------------------
  // What a finished walk has visited and diagnosed
  // ---------------------------------------------------------------------------

  /** `x` stands for `t`, itself or by a redirect. */
  ghost predicate StandsFor(g: Graph, x: Url, t: Url) {
    (x in g.redirects ==> t == g.redirects[x]) && (x !in g.redirects ==> t == x)
  }

  /** Scripts and wasm modules are followed, except declaration files whose options skip
      library checks. */
  ghost predicate Followed(m: Module) {
    && (m.kind == JsModule || m.kind == WasmModule)
    && !(m.kind == JsModule && m.skipLibCheck && (m.mediaType == Dts || m.mediaType == Dmts || m.mediaType == Dcts))
  }

  ghost predicate DependsOn(g: Graph, dep: Dependency, t: Url, isDynamic: bool) {
    && dep.isDynamic == isDynamic
    && exists x :: (dep.maybeType == Resolved(x) || dep.maybeCode == Resolved(x)) && StandsFor(g, x, t)
  }

  /** A loaded module leads to `t`: by the type or the code of a dependency of the
      given kind, or, statically, as the types of a script. */
  ghost predicate LeadsTo(g: Graph, u: Url, t: Url, isDynamic: bool) {
    && u in g.slots && g.slots[u].Loaded? && Followed(g.slots[u].m)
    && var m := g.slots[u].m;
       || (exists i :: 0 <= i < |m.dependencies| && DependsOn(g, m.dependencies[i], t, isDynamic))
       || (m.kind == JsModule && !isDynamic && exists x :: m.typesDependency == Some(x) && StandsFor(g, x, t))
  }

  lemma ResolveStandsFor(g: Graph, x: Url, t: Url)
    ensures Resolve(g, x) == t <==> StandsFor(g, x, t)
  {
  }

  lemma TargetOfDependency(g: Graph, dep: Dependency, t: Url, d: bool)
    ensures Item(t, d) in TargetOf(g, dep.maybeType, dep.isDynamic) + TargetOf(g, dep.maybeCode, dep.isDynamic) <==>
            DependsOn(g, dep, t, d)
  {
    if dep.maybeType.Resolved? {
      ResolveStandsFor(g, dep.maybeType.url, t);
    }
    if dep.maybeCode.Resolved? {
      ResolveStandsFor(g, dep.maybeCode.url, t);
    }
  }

  lemma {:induction false} DependencyTargetsMean(g: Graph, deps: seq<Dependency>, t: Url, d: bool)
    ensures Item(t, d) in DependencyTargets(g, deps) <==> exists i :: 0 <= i < |deps| && DependsOn(g, deps[i], t, d)
  {
    if deps != [] {
      TargetOfDependency(g, deps[0], t, d);
      DependencyTargetsMean(g, deps[1..], t, d);
      if i :| 0 <= i < |deps| && DependsOn(g, deps[i], t, d) {
        assert i > 0 ==> deps[1..][i - 1] == deps[i];
      }
      if i :| 0 <= i < |deps[1..]| && DependsOn(g, deps[1..][i], t, d) {
        assert deps[i + 1] == deps[1..][i];
      }
    }
  }

  /** The edges of the walk are exactly the ways a module leads on. */
  lemma EdgeMeans(g: Graph, u: Url, t: Url, d: bool)
    ensures Edge(g, u, t, d) <==> LeadsTo(g, u, t, d)
  {
    if IsModule(g, u) {
      var m := g.slots[u].m;
      DependencyTargetsMean(g, m.dependencies, t, d);
      if m.typesDependency.Some? {
        ResolveStandsFor(g, m.typesDependency.value, t);
      }
    }
  }

  /** A path from a start along edges of either kind, through loaded modules that
      no npm config import consumed. */
  ghost predicate IsPath(g: Graph, starts: set<Url>, consumed: set<Url>, p: seq<Url>) {
    && p != [] && p[0] in starts
    && (forall i :: 0 <= i < |p| ==> IsModule(g, p[i]) && p[i] !in consumed)
    && (forall i :: 0 < i < |p| ==> LeadsTo(g, p[i - 1], p[i], false) || LeadsTo(g, p[i - 1], p[i], true))
  }

  ghost predicate PathTo(g: Graph, starts: set<Url>, consumed: set<Url>, p: seq<Url>, u: Url) {
    IsPath(g, starts, consumed, p) && p[|p| - 1] == u
  }

  ghost predicate Reachable(g: Graph, starts: set<Url>, consumed: set<Url>, u: Url) {
    exists p :: PathTo(g, starts, consumed, p, u)
  }

  lemma {:induction false} PathsAreVisited(g: Graph, starts: set<Url>, consumed: set<Url>, w: Walker, p: seq<Url>)
    requires Inv(g, starts, consumed, w) && w.pending == []
    requires IsPath(g, starts, consumed, p)
    ensures p[|p| - 1] in w.visited
    decreases |p|
  {
    var u := p[|p| - 1];
    if |p| > 1 {
      var before := p[..|p| - 1];
      assert before[0] == p[0];
      PathsAreVisited(g, starts, consumed, w, before);
      assert before[|before| - 1] == p[|p| - 2];
      EdgeMeans(g, p[|p| - 2], u, false);
      EdgeMeans(g, p[|p| - 2], u, true);
    }
    assert u in w.seen;
  }

  lemma LongerPath(g: Graph, starts: set<Url>, consumed: set<Url>, p: seq<Url>, u: Url, d: bool)
    requires IsPath(g, starts, consumed, p) && LeadsTo(g, p[|p| - 1], u, d) && IsModule(g, u) && u !in consumed
    ensures PathTo(g, starts, consumed, p + [u], u)
  {
    var q := p + [u];
    assert q[|p|] == u && q[|p| - 1] == p[|p| - 1];
    assert forall i :: 0 <= i < |p| ==> q[i] == p[i];
    forall i | 0 < i < |q| ensures LeadsTo(g, q[i - 1], q[i], false) || LeadsTo(g, q[i - 1], q[i], true) {
      assert i < |p| ==> LeadsTo(g, p[i - 1], p[i], false) || LeadsTo(g, p[i - 1], p[i], true);
    }
  }

  lemma ExtendPath(g: Graph, starts: set<Url>, consumed: set<Url>, v: Url, u: Url, d: bool)
    requires Reachable(g, starts, consumed, v) && LeadsTo(g, v, u, d) && IsModule(g, u) && u !in consumed
    ensures Reachable(g, starts, consumed, u)
  {
    var p :| PathTo(g, starts, consumed, p, v);
    LongerPath(g, starts, consumed, p, u, d);
  }

  lemma {:induction false} VisitedIsReachable(g: Graph, starts: set<Url>, consumed: set<Url>, w: Walker, i: nat)
    requires Inv(g, starts, consumed, w) && i < |w.visited|
    ensures Reachable(g, starts, consumed, w.visited[i])
    decreases i
  {
    var u := w.visited[i];
    assert u in w.visited;
    if u in starts {
      assert PathTo(g, starts, consumed, [u], u);
    } else {
      var d := !Reached(g, w.visited[..i], u, false);
      var v :| v in w.visited[..i] && Edge(g, v, u, d);
      var j :| 0 <= j < i && w.visited[j] == v;
      VisitedIsReachable(g, starts, consumed, w, j);
      EdgeMeans(g, v, u, d);
      ExtendPath(g, starts, consumed, v, u, d);
    }
  }

  /** A finished walk has visited, each once, exactly the modules reachable from
      the starts, however static and dynamic edges interleaved. */
  lemma WalkVisitsReachable(g: Graph, starts: set<Url>, consumed: set<Url>, w: Walker)
    requires Inv(g, starts, consumed, w) && w.pending == []
    ensures forall i, j :: 0 <= i < j < |w.visited| ==> w.visited[i] != w.visited[j]
    ensures forall u :: u in w.visited <==> Reachable(g, starts, consumed, u)
  {
    forall u ensures u in w.visited <==> Reachable(g, starts, consumed, u) {
      if u in w.visited {
        var i :| 0 <= i < |w.visited| && w.visited[i] == u;
        VisitedIsReachable(g, starts, consumed, w, i);
      }
      if Reachable(g, starts, consumed, u) {
        var p :| PathTo(g, starts, consumed, p, u);
        PathsAreVisited(g, starts, consumed, w, p);
      }
    }
  }

  /** A specifier that is a start, or that a reachable module leads to statically. */
  ghost predicate NeededStatically(g: Graph, starts: set<Url>, consumed: set<Url>, u: Url) {
    u in starts || exists v :: Reachable(g, starts, consumed, v) && LeadsTo(g, v, u, false)
  }

  /** A diagnosable specifier is reported exactly once if it is needed statically,
      even when dynamic edges reached it first, and not at all otherwise. */
  lemma WalkDiagnosesNeeded(g: Graph, starts: set<Url>, consumed: set<Url>, w: Walker, u: Url)
    requires Inv(g, starts, consumed, w) && w.pending == []
    ensures multiset(w.missing)[MissingModule(u)] ==
            if IsDiagnosable(g, u) && u !in consumed && NeededStatically(g, starts, consumed, u) then 1 else 0
  {
    WalkVisitsReachable(g, starts, consumed, w);
    forall v | Reachable(g, starts, consumed, v) && LeadsTo(g, v, u, false) ensures u in w.seen {
      assert v in w.visited;
      EdgeMeans(g, v, u, false);
    }
    if IsDiagnosable(g, u) && u !in consumed && u in w.seen && u !in starts {
      assert u !in w.visited;
      assert Reached(g, w.visited, u, false);
      var v :| v in w.visited && Edge(g, v, u, false);
      EdgeMeans(g, v, u, false);
      assert Reachable(g, starts, consumed, v);
    }
  }

  lemma WalksVisitAlike(g: Graph, starts: set<Url>, consumed: set<Url>, w1: Walker, w2: Walker)
    requires Inv(g, starts, consumed, w1) && w1.pending == []
    requires Inv(g, starts, consumed, w2) && w2.pending == []
    ensures multiset(w1.visited) == multiset(w2.visited)
    ensures forall u :: multiset(w1.missing)[MissingModule(u)] == multiset(w2.missing)[MissingModule(u)]
  {
    WalkVisitsReachable(g, starts, consumed, w1);
    WalkVisitsReachable(g, starts, consumed, w2);
    SameMultiset(w1.visited, w2.visited);
    forall u ensures multiset(w1.missing)[MissingModule(u)] == multiset(w2.missing)[MissingModule(u)] {
      WalkDiagnosesNeeded(g, starts, consumed, w1, u);
      WalkDiagnosesNeeded(g, starts, consumed, w2, u);
    }
  }

  /** What a finished walk has marked as seen. */
  ghost predicate Met(g: Graph, starts: set<Url>, consumed: set<Url>, u: Url) {
    u in consumed || NeededStatically(g, starts, consumed, u) || Reachable(g, starts, consumed, u)
  }

  lemma SeenIsMet(g: Graph, starts: set<Url>, consumed: set<Url>, w: Walker, u: Url)
    requires Inv(g, starts, consumed, w) && w.pending == []
    ensures u in w.seen <==> Met(g, starts, consumed, u)
  {
    WalkVisitsReachable(g, starts, consumed, w);
    if u in w.seen && u !in consumed && Reached(g, w.visited, u, false) {
      var v :| v in w.visited && Edge(g, v, u, false);
      EdgeMeans(g, v, u, false);
      assert Reachable(g, starts, consumed, v);
    }
    if v :| Reachable(g, starts, consumed, v) && LeadsTo(g, v, u, false) {
      assert v in w.visited;
      EdgeMeans(g, v, u, false);
    }
  }

  lemma SameMultiset(a: seq<Url>, b: seq<Url>)
    requires forall i, j :: 0 <= i < j < |a| ==> a[i] != a[j]
    requires forall i, j :: 0 <= i < j < |b| ==> b[i] != b[j]
    requires forall u :: u in a <==> u in b
    ensures multiset(a) == multiset(b)
  {
    DistinctMultiset(a);
    DistinctMultiset(b);
  }

  lemma {:induction false} DistinctMultiset(s: seq<Url>)
    requires forall i, j :: 0 <= i < j < |s| ==> s[i] != s[j]
    ensures forall u :: multiset(s)[u] == if u in s then 1 else 0
  {
    if s != [] {
      DistinctMultiset(s[1..]);
      assert s == [s[0]] + s[1..];
    }
  }

  // ---------------------------------------------------------------------------
  // What the walk hands to the checker
  // ---------------------------------------------------------------------------

  /** What `f` yields for each specifier, joined up. */
  function Gathered<T>(f: Url -> seq<T>, visited: seq<Url>): seq<T> {
    if visited == [] then [] else Gathered(f, visited[..|visited| - 1]) + f(visited[|visited| - 1])
  }

  lemma {:induction false} GatheredConcat<T>(f: Url -> seq<T>, a: seq<Url>, b: seq<Url>)
    ensures Gathered(f, a + b) == Gathered(f, a) + Gathered(f, b)
    decreases |b|
  {
    if b == [] {
      assert a + b == a;
    } else {
      var before, last := b[..|b| - 1], b[|b| - 1];
      GatheredConcat(f, a, before);
      assert (a + b)[..|a + b| - 1] == a + before;
      Regroup(Gathered(f, a), Gathered(f, before), f(last));
    }
  }

  lemma GatheredOne<T>(f: Url -> seq<T>, u: Url)
    ensures Gathered(f, [u]) == f(u)
  {
    assert [u][..0] == [];
    assert [] + f(u) == f(u);
  }

  /** Taking one specifier out takes out what it yields. */
  lemma GatheredAround<T>(f: Url -> seq<T>, a: seq<Url>, u: Url, b: seq<Url>)
    ensures multiset(Gathered(f, a + [u] + b)) == multiset(Gathered(f, a + b)) + multiset(f(u))
  {
    GatheredConcat(f, a + [u], b);
    GatheredConcat(f, a, [u]);
    GatheredOne(f, u);
    GatheredConcat(f, a, b);
    TakeOut(Gathered(f, a), f(u), Gathered(f, b));
  }

  /** The order of the specifiers does not matter to what is gathered. */
  lemma {:induction false} OrderIsIrrelevant<T>(f: Url -> seq<T>, a: seq<Url>, b: seq<Url>)
    requires multiset(a) == multiset(b)
    ensures multiset(Gathered(f, a)) == multiset(Gathered(f, b))
    decreases |a|
  {
    if a == [] {
      assert |multiset(b)| == 0;
    } else {
      var front, u := a[..|a| - 1], a[|a| - 1];
      var b1, b2 := SplitAt(b, u);
      assert a == front + [u] + [] && front + [] == front;
      TakeOut(front, [u], []);
      TakeOut(b1, [u], b2);
      Cancel(multiset(front), multiset(b1 + b2), multiset([u]));
      GatheredAround(f, front, u, []);
      GatheredAround(f, b1, u, b2);
      OrderIsIrrelevant(f, front, b1 + b2);
    }
  }

  lemma SplitAt(s: seq<Url>, u: Url) returns (a: seq<Url>, b: seq<Url>)
    requires u in multiset(s)
    ensures s == a + [u] + b
  {
    var k :| 0 <= k < |s| && s[k] == u;
    a, b := s[..k], s[k + 1..];
  }

  function RootsAt(g: Graph): Url -> seq<(Url, MediaType)> {
    (u: Url) => if IsModule(g, u) then RootsOf(u, g.slots[u].m) else []
  }

  function HashAt(g: Graph): Url -> seq<Token> {
    (u: Url) => if IsModule(g, u) then HashOf(u, g.slots[u].m) else []
  }

  function DiagnosticsAt(g: Graph): Url -> seq<Diagnostic> {
    (u: Url) => if IsModule(g, u) then ModuleDiagnostics(g.slots[u].m) else []
  }

  function AllRoots(g: Graph, visited: seq<Url>): seq<(Url, MediaType)> {
    Gathered(RootsAt(g), visited)
  }

  function AllHashed(g: Graph, visited: seq<Url>): seq<Token> {
    Gathered(HashAt(g), visited)
  }

  function AllDiagnostics(g: Graph, visited: seq<Url>): seq<Diagnostic> {
    Gathered(DiagnosticsAt(g), visited)
  }

  /** What the consumed config imports came to: files to check, and specifiers that do
      not resolve. */
  datatype NpmImports = NpmImports(files: multiset<(Url, MediaType)>, unresolved: multiset<Url>)

  ghost function Joined(before: NpmImports, u: Url, npm: NpmReference): NpmImports {
    NpmImports(before.files + NpmRoots(npm), before.unresolved + if npm.NpmUnresolved? then multiset{u} else multiset{})
  }

  ghost function NpmRoots(npm: NpmReference): multiset<(Url, MediaType)> {
    if npm.NpmFile? then multiset{(npm.url, npm.mediaType)} else multiset{}
  }

  /** The hash input is that of the visited modules, in visiting order. */
  ghost predicate HashDelivers(g: Graph, header: seq<Token>, w: Walker) {
    w.hashed == header + AllHashed(g, w.visited)
  }

  /** The roots are those of the visited modules and of consumed config imports. */
  ghost predicate RootsDeliver(g: Graph, npmRoots: multiset<(Url, MediaType)>, w: Walker) {
    multiset(w.roots) == multiset(AllRoots(g, w.visited)) + npmRoots
  }

  ghost predicate DiagnosticsDeliver(g: Graph, w: Walker) {
    forall e :: multiset(w.missing)[Unresolvable(e)] == multiset(AllDiagnostics(g, w.visited))[Unresolvable(e)]
  }

  ghost predicate NodeDelivers(g: Graph, w: Walker) {
    w.hasSeenNodeBuiltin <==> exists u :: u in w.visited && IsModule(g, u) && g.slots[u].m.kind == NodeModule
  }

  /** One report for each consumed import that does not resolve, and no others. */
  ghost predicate ImportsDeliver(unresolved: multiset<Url>, w: Walker) {
    forall u :: multiset(w.missing)[MissingConfigImport(u)] == unresolved[u]
  }

  ghost predicate Delivers(g: Graph, header: seq<Token>, imported: NpmImports, w: Walker) {
    && HashDelivers(g, header, w) && RootsDeliver(g, imported.files, w) && DiagnosticsDeliver(g, w) && NodeDelivers(g, w)
    && ImportsDeliver(imported.unresolved, w)
  }

  lemma VisitedSnoc(g: Graph, visited: seq<Url>, u: Url)
    requires IsModule(g, u)
    ensures AllHashed(g, visited + [u]) == AllHashed(g, visited) + HashOf(u, g.slots[u].m)
    ensures AllRoots(g, visited + [u]) == AllRoots(g, visited) + RootsOf(u, g.slots[u].m)
    ensures AllDiagnostics(g, visited + [u]) == AllDiagnostics(g, visited) + ModuleDiagnostics(g.slots[u].m)
  {
    assert (visited + [u])[..|visited|] == visited;
  }

  lemma SumOfParts<T>(whole: seq<T>, part: seq<T>, extra: multiset<T>, more: seq<T>)
    requires multiset(whole) == multiset(part) + extra
    ensures multiset(whole + more) == multiset(part + more) + extra
  {
  }

  lemma HashVisit(g: Graph, header: seq<Token>, w: Walker, u: Url)
    requires HashDelivers(g, header, w) && IsModule(g, u)
    ensures HashDelivers(g, header, Visit(g, w, u, g.slots[u].m))
  {
    VisitedSnoc(g, w.visited, u);
    Regroup(header, AllHashed(g, w.visited), HashOf(u, g.slots[u].m));
  }

  lemma RootsVisit(g: Graph, npmRoots: multiset<(Url, MediaType)>, w: Walker, u: Url)
    requires RootsDeliver(g, npmRoots, w) && IsModule(g, u)
    ensures RootsDeliver(g, npmRoots, Visit(g, w, u, g.slots[u].m))
  {
    VisitedSnoc(g, w.visited, u);
    SumOfParts(w.roots, AllRoots(g, w.visited), npmRoots, RootsOf(u, g.slots[u].m));
  }

  lemma DiagnosticsVisit(g: Graph, w: Walker, u: Url)
    requires DiagnosticsDeliver(g, w) && IsModule(g, u)
    ensures DiagnosticsDeliver(g, Visit(g, w, u, g.slots[u].m))
  {
    VisitedSnoc(g, w.visited, u);
    var more := ModuleDiagnostics(g.slots[u].m);
    assert multiset(w.missing + more) == multiset(w.missing) + multiset(more);
    assert multiset(AllDiagnostics(g, w.visited) + more) == multiset(AllDiagnostics(g, w.visited)) + multiset(more);
  }

  lemma {:induction false} NoImportsAmong(deps: seq<Dependency>, u: Url)
    ensures MissingConfigImport(u) !in AllDependencyDiagnostics(deps)
  {
    if deps != [] {
      NoImportsAmong(deps[1..], u);
    }
  }

  lemma ImportsVisit(unresolved: multiset<Url>, g: Graph, w: Walker, u: Url)
    requires ImportsDeliver(unresolved, w) && IsModule(g, u)
    ensures ImportsDeliver(unresolved, Visit(g, w, u, g.slots[u].m))
  {
    var more := ModuleDiagnostics(g.slots[u].m);
    assert multiset(w.missing + more) == multiset(w.missing) + multiset(more);
    forall x ensures multiset(more)[MissingConfigImport(x)] == 0 {
      NoImportsAmong(g.slots[u].m.dependencies, x);
    }
  }

  lemma NodeVisit(g: Graph, w: Walker, u: Url)
    requires NodeDelivers(g, w) && IsModule(g, u)
    ensures NodeDelivers(g, Visit(g, w, u, g.slots[u].m))
  {
    forall v ensures v in w.visited + [u] <==> v in w.visited || v == u {
    }
  }

  /** Every iteration keeps what the walk delivers in step with what it visited. */
  lemma PopDelivers(g: Graph, header: seq<Token>, imported: NpmImports, w: Walker)
    requires Delivers(g, header, imported, w) && w.pending != []
    ensures Delivers(g, header, imported, Pop(g, w))
  {
    var u, rest := w.pending[0].url, w.(pending := w.pending[1..]);
    assert Delivers(g, header, imported, rest);
    if IsModule(g, u) && !(w.pending[0].isDynamic && u in w.seen) {
      VisitDelivers(g, header, imported, rest, u);
    } else if !IsModule(g, u) && !w.pending[0].isDynamic && IsDiagnosable(g, u) {
      ReportDelivers(g, header, imported, rest, u);
    }
  }

  lemma VisitDelivers(g: Graph, header: seq<Token>, imported: NpmImports, w: Walker, u: Url)
    requires Delivers(g, header, imported, w) && IsModule(g, u)
    ensures Delivers(g, header, imported, Visit(g, w, u, g.slots[u].m))
  {
    HashVisit(g, header, w, u);
    RootsVisit(g, imported.files, w, u);
    DiagnosticsVisit(g, w, u);
    ImportsVisit(imported.unresolved, g, w, u);
    NodeVisit(g, w, u);
  }

  lemma ReportDelivers(g: Graph, header: seq<Token>, imported: NpmImports, w: Walker, u: Url)
    requires Delivers(g, header, imported, w)
    ensures Delivers(g, header, imported, w.(missing := w.missing + [MissingModule(u)]))
  {
    var missing := w.missing + [MissingModule(u)];
    assert forall d :: d != MissingModule(u) ==> multiset(missing)[d] == multiset(w.missing)[d];
  }

  lemma StartDelivers(g: Graph, header: seq<Token>, imported: NpmImports, w: Walker, u: Url)
    requires Delivers(g, header, imported, w)
    ensures Delivers(g, header, imported, Start(w, u))
  {
  }

  lemma ConsumeDelivers(
      g: Graph, header: seq<Token>, imported: NpmImports, w: Walker, u: Url, npm: NpmReference)
    requires Delivers(g, header, imported, w) && !npm.NotNpm?
    ensures Delivers(g, header, Joined(imported, u, npm), Consume(w, u, npm))
  {
    var w' := Consume(w, u, npm);
    assert HashDelivers(g, header, w') && NodeDelivers(g, w');
    ConsumeRoots(g, imported.files, w, u, npm);
    ConsumeDiagnostics(g, w, u, npm);
    ConsumeImports(imported.unresolved, w, u, npm);
  }

  lemma ConsumeRoots(g: Graph, npmRoots: multiset<(Url, MediaType)>, w: Walker, u: Url, npm: NpmReference)
    requires RootsDeliver(g, npmRoots, w) && !npm.NotNpm?
    ensures RootsDeliver(g, npmRoots + NpmRoots(npm), Consume(w, u, npm))
  {
    var all := multiset(AllRoots(g, w.visited));
    if npm.NpmFile? {
      var more := multiset{(npm.url, npm.mediaType)};
      assert all + npmRoots + more == all + (npmRoots + more);
    } else {
      assert npmRoots + multiset{} == npmRoots;
    }
  }

  lemma ConsumeImports(unresolved: multiset<Url>, w: Walker, u: Url, npm: NpmReference)
    requires ImportsDeliver(unresolved, w) && !npm.NotNpm?
    ensures ImportsDeliver(unresolved + (if npm.NpmUnresolved? then multiset{u} else multiset{}), Consume(w, u, npm))
  {
    var w' := Consume(w, u, npm);
    forall x
      ensures multiset(w'.missing)[MissingConfigImport(x)] ==
              unresolved[x] + (if npm.NpmUnresolved? && x == u then 1 else 0)
    {
      assert npm.NpmUnresolved? ==> multiset(w'.missing) == multiset(w.missing) + multiset{MissingConfigImport(u)};
    }
  }

  lemma ConsumeDiagnostics(g: Graph, w: Walker, u: Url, npm: NpmReference)
    requires DiagnosticsDeliver(g, w) && !npm.NotNpm?
    ensures DiagnosticsDeliver(g, Consume(w, u, npm))
  {
    var w' := Consume(w, u, npm);
    forall e ensures multiset(w'.missing)[Unresolvable(e)] == multiset(w.missing)[Unresolvable(e)] {
    }
  }

  /** Everything a walk keeps. `header` seeds the hash and `imported` is what the
      consumed config imports came to. */
  ghost predicate Good(
      g: Graph, starts: set<Url>, consumed: set<Url>, header: seq<Token>, imported: NpmImports, w: Walker)
  {
    Inv(g, starts, consumed, w) && Delivers(g, header, imported, w)
  }

  lemma NewWalkerGood(g: Graph, header: seq<Token>)
    ensures Good(g, {}, {}, header, NpmImports(multiset{}, multiset{}), NewWalker(header))
  {
    var w := NewWalker(header);
    NewWalkerInv(g, header);
    assert Delivers(g, header, NpmImports(multiset{}, multiset{}), w);
  }

  /** An iteration of the queue loop keeps it all and makes progress. */
  lemma PopKeepsGood(
      g: Graph, starts: set<Url>, consumed: set<Url>, header: seq<Token>, imported: NpmImports, w: Walker)
    requires Good(g, starts, consumed, header, imported, w) && w.pending != []
    ensures Good(g, starts, consumed, header, imported, Pop(g, w))
    ensures || |Unvisited(g, Pop(g, w))| < |Unvisited(g, w)|
            || (|Unvisited(g, Pop(g, w))| == |Unvisited(g, w)| && |Pop(g, w).pending| < |w.pending|)
  {
    PopKeepsInv(g, starts, consumed, w);
    PopDelivers(g, header, imported, w);
    PopDecreases(g, starts, consumed, w);
  }

  lemma StartKeepsGood(
      g: Graph, starts: set<Url>, consumed: set<Url>, header: seq<Token>, imported: NpmImports,
      w: Walker, u: Url)
    requires Good(g, starts, consumed, header, imported, w)
    ensures Good(g, starts + {u}, consumed, header, imported, Start(w, u))
  {
    StartKeepsInv(g, starts, consumed, w, u);
    StartDelivers(g, header, imported, w, u);
  }

  lemma ConsumeKeepsGood(
      g: Graph, starts: set<Url>, consumed: set<Url>, header: seq<Token>, imported: NpmImports,
      w: Walker, u: Url, npm: NpmReference)
    requires Good(g, starts, consumed, header, imported, w) && u !in w.seen && !npm.NotNpm?
    ensures Good(g, starts, consumed + {u}, header, Joined(imported, u, npm), Consume(w, u, npm))
  {
    ConsumeKeepsInv(g, starts, consumed, w, u, npm);
    ConsumeDelivers(g, header, imported, w, u, npm);
  }

  /** So two finished walks from the same starts agree, whatever order they ran in:
      on the modules visited, the roots of the check, the missing modules and the
      unresolvable dependencies reported, and on whether a node built-in was met. */
  lemma WalksAgree(
      g: Graph, starts: set<Url>, consumed: set<Url>, imported: NpmImports,
      header1: seq<Token>, w1: Walker, header2: seq<Token>, w2: Walker)
    requires Good(g, starts, consumed, header1, imported, w1) && w1.pending == []
    requires Good(g, starts, consumed, header2, imported, w2) && w2.pending == []
    ensures multiset(w1.visited) == multiset(w2.visited)
    ensures multiset(w1.roots) == multiset(w2.roots)
    ensures forall u :: multiset(w1.missing)[MissingModule(u)] == multiset(w2.missing)[MissingModule(u)]
    ensures forall e :: multiset(w1.missing)[Unresolvable(e)] == multiset(w2.missing)[Unresolvable(e)]
    ensures forall u :: multiset(w1.missing)[MissingConfigImport(u)] == multiset(w2.missing)[MissingConfigImport(u)]
    ensures w1.hasSeenNodeBuiltin == w2.hasSeenNodeBuiltin
  {
    WalksVisitAlike(g, starts, consumed, w1, w2);
    OrderIsIrrelevant(RootsAt(g), w1.visited, w2.visited);
    OrderIsIrrelevant(DiagnosticsAt(g), w1.visited, w2.visited);
    assert forall u :: u in w1.visited <==> u in multiset(w1.visited);
    assert forall u :: u in w2.visited <==> u in multiset(w2.visited);
  }

  // ---------------------------------------------------------------------------
  // What a finished walk hands over, in terms of the graph
  // ---------------------------------------------------------------------------

  /** Module `u` is checked as a file of type `t`: a wasm module by its generated
      declarations, a declaration file outside the graph, a typed script, or a plain
      script that asks for checking. */
  ghost predicate BecomesRoot(g: Graph, u: Url, t: MediaType) {
    && u in g.slots && g.slots[u].Loaded?
    && var m := g.slots[u].m;
       || (m.kind == WasmModule && t == Dmts)
       || (m.kind == ExternalModule && t == m.mediaType && t in {Dts, Dmts, Dcts})
       || (m.kind == JsModule && t == m.mediaType && t in {TypeScript, Mts, Cts, Tsx, Dts, Dmts, Dcts})
       || (m.kind == JsModule && t == m.mediaType && m.checkJs && t in {JavaScript, Jsx, Mjs, Cjs})
  }

  /** The text of module `u` enters the hash: that of JSON and wasm, and of scripts that
      are checked. */
  ghost predicate TextIsHashed(g: Graph, u: Url) {
    && u in g.slots && g.slots[u].Loaded?
    && var m := g.slots[u].m;
       || m.kind == JsonModule || m.kind == WasmModule
       || (m.kind == JsModule && BecomesRoot(g, u, m.mediaType))
  }

  /** A file outside the graph enters the hash by its name alone. */
  ghost predicate NameIsHashed(g: Graph, u: Url) {
    TextIsHashed(g, u) || (u in g.slots && g.slots[u].Loaded? && g.slots[u].m.kind == ExternalModule)
  }

  /** A static dependency that fails with this error: by its type, or by its code when
      it has no type resolution. */
  ghost predicate FailsWith(dep: Dependency, error: string) {
    && !dep.isDynamic
    && (|| dep.maybeType == ResolutionFailed(Some(error))
        || (dep.maybeType == NoResolution && dep.maybeCode == ResolutionFailed(Some(error))))
  }

  ghost predicate HasFailing(g: Graph, u: Url, error: string) {
    && u in g.slots && g.slots[u].Loaded? && Followed(g.slots[u].m)
    && exists i :: 0 <= i < |g.slots[u].m.dependencies| && FailsWith(g.slots[u].m.dependencies[i], error)
  }

  /** Reachable modules that become roots are roots, once. */
  ghost predicate HandsOverRoots(
      g: Graph, starts: set<Url>, consumed: set<Url>, files: multiset<(Url, MediaType)>, w: Walker)
  {
    forall u, t :: multiset(w.roots)[(u, t)] ==
      files[(u, t)] + if Reachable(g, starts, consumed, u) && BecomesRoot(g, u, t) then 1 else 0
  }

  /** Names and texts of reachable modules enter the hash, each once and together. */
  ghost predicate HandsOverHash(g: Graph, starts: set<Url>, consumed: set<Url>, header: seq<Token>, w: Walker) {
    && header <= w.hashed
    && (forall u :: multiset(w.hashed[|header|..])[SpecifierToken(u)] ==
          if Reachable(g, starts, consumed, u) && NameIsHashed(g, u) then 1 else 0)
    && (forall u :: Reachable(g, starts, consumed, u) && TextIsHashed(g, u) ==>
          Within([SpecifierToken(u), TextToken(g.slots[u].m.text)], w.hashed[|header|..]))
  }

  ghost predicate Within<T>(part: seq<T>, s: seq<T>) {
    exists k: nat :: k <= |s| && part <= s[k..]
  }

  /** Exactly the errors of static dependencies of reachable modules are reported, and
      a node built-in was met exactly when one is reachable. */
  ghost predicate HandsOverErrors(g: Graph, starts: set<Url>, consumed: set<Url>, w: Walker) {
    && (forall e :: Unresolvable(e) in w.missing <==>
          exists u :: Reachable(g, starts, consumed, u) && HasFailing(g, u, e))
    && (w.hasSeenNodeBuiltin <==>
          exists u :: Reachable(g, starts, consumed, u) && IsModule(g, u) && g.slots[u].m.kind == NodeModule)
  }

  /** An item that only `u` yields is gathered as often as `u` yields it. */
  lemma {:induction false} GatheredCount<T>(f: Url -> seq<T>, visited: seq<Url>, u: Url, x: T)
    requires forall i, j :: 0 <= i < j < |visited| ==> visited[i] != visited[j]
    requires forall v :: v != u ==> x !in f(v)
    ensures multiset(Gathered(f, visited))[x] == if u in visited then multiset(f(u))[x] else 0
  {
    if visited != [] {
      var before, last := visited[..|visited| - 1], visited[|visited| - 1];
      assert visited == before + [last] && last !in before;
      GatheredCount(f, before, u, x);
      assert multiset(Gathered(f, visited)) == multiset(Gathered(f, before)) + multiset(f(last));
    }
  }

  lemma {:induction false} GatheredMember<T>(f: Url -> seq<T>, visited: seq<Url>, x: T)
    ensures x in Gathered(f, visited) <==> exists u :: u in visited && x in f(u)
  {
    if visited != [] {
      var before, last := visited[..|visited| - 1], visited[|visited| - 1];
      assert visited == before + [last];
      GatheredMember(f, before, x);
    }
  }

  lemma CheckEntryMeans(m: Module, t: MediaType)
    ensures CheckEntry(m) == Some(t) <==>
              || (m.kind == WasmModule && t == Dmts)
              || (m.kind == JsModule && t == m.mediaType && t in {TypeScript, Mts, Cts, Tsx, Dts, Dmts, Dcts})
              || (m.kind == JsModule && t == m.mediaType && m.checkJs && t in {JavaScript, Jsx, Mjs, Cjs})
  {
  }

  lemma RootsOfMeans(g: Graph, u: Url, t: MediaType)
    requires IsModule(g, u)
    ensures RootsOf(u, g.slots[u].m) == [(u, t)] <==> BecomesRoot(g, u, t)
  {
    CheckEntryMeans(g.slots[u].m, t);
  }

  lemma RootsAreOwn(g: Graph, v: Url)
    ensures forall x :: x in RootsAt(g)(v) ==> x.0 == v
  {
  }

  lemma RootOnce(g: Graph, u: Url, t: MediaType)
    ensures multiset(RootsAt(g)(u))[(u, t)] == if BecomesRoot(g, u, t) then 1 else 0
    ensures forall v :: v != u ==> (u, t) !in RootsAt(g)(v)
  {
    forall v | v != u ensures (u, t) !in RootsAt(g)(v) {
      RootsAreOwn(g, v);
    }
    if IsModule(g, u) {
      RootsOfMeans(g, u, t);
      var roots := RootsOf(u, g.slots[u].m);
      assert roots == [] || roots == [roots[0]];
    }
  }

  lemma RootsHandedOver(
      g: Graph, starts: set<Url>, consumed: set<Url>, files: multiset<(Url, MediaType)>, w: Walker)
    requires Inv(g, starts, consumed, w) && w.pending == [] && RootsDeliver(g, files, w)
    ensures HandsOverRoots(g, starts, consumed, files, w)
  {
    WalkVisitsReachable(g, starts, consumed, w);
    forall u, t
      ensures multiset(w.roots)[(u, t)] ==
              files[(u, t)] + if Reachable(g, starts, consumed, u) && BecomesRoot(g, u, t) then 1 else 0
    {
      RootOnce(g, u, t);
      GatheredCount(RootsAt(g), w.visited, u, (u, t));
    }
  }

  lemma HashOfMeans(g: Graph, u: Url)
    requires IsModule(g, u)
    ensures var m := g.slots[u].m;
            HashOf(u, m) == if TextIsHashed(g, u) then [SpecifierToken(u), TextToken(m.text)]
                            else if NameIsHashed(g, u) then [SpecifierToken(u)] else []
  {
    CheckEntryMeans(g.slots[u].m, g.slots[u].m.mediaType);
  }

  lemma HashIsOwn(g: Graph, v: Url, u: Url)
    requires v != u
    ensures SpecifierToken(u) !in HashAt(g)(v)
  {
    if IsModule(g, v) {
      HashOfMeans(g, v);
    }
  }

  lemma NameOnce(g: Graph, u: Url)
    ensures multiset(HashAt(g)(u))[SpecifierToken(u)] == if NameIsHashed(g, u) then 1 else 0
    ensures forall v :: v != u ==> SpecifierToken(u) !in HashAt(g)(v)
    ensures TextIsHashed(g, u) ==> HashAt(g)(u) == [SpecifierToken(u), TextToken(g.slots[u].m.text)]
  {
    forall v | v != u ensures SpecifierToken(u) !in HashAt(g)(v) {
      HashIsOwn(g, v, u);
    }
    if IsModule(g, u) {
      HashOfMeans(g, u);
    }
  }

  lemma GatheredWithin<T>(f: Url -> seq<T>, visited: seq<Url>, u: Url)
    requires u in visited
    ensures Within(f(u), Gathered(f, visited))
  {
    assert u in multiset(visited);
    var a, b := SplitAt(visited, u);
    GatheredConcat(f, a + [u], b);
    GatheredConcat(f, a, [u]);
    GatheredOne(f, u);
    var all, k := Gathered(f, visited), |Gathered(f, a)|;
    assert all == Gathered(f, a) + f(u) + Gathered(f, b);
    assert all[k..] == f(u) + Gathered(f, b);
  }

  lemma HashHandedOver(g: Graph, starts: set<Url>, consumed: set<Url>, header: seq<Token>, w: Walker)
    requires Inv(g, starts, consumed, w) && w.pending == [] && HashDelivers(g, header, w)
    ensures HandsOverHash(g, starts, consumed, header, w)
  {
    WalkVisitsReachable(g, starts, consumed, w);
    var hashed := Gathered(HashAt(g), w.visited);
    assert w.hashed[|header|..] == hashed;
    forall u
      ensures multiset(hashed)[SpecifierToken(u)] ==
              if Reachable(g, starts, consumed, u) && NameIsHashed(g, u) then 1 else 0
    {
      NameOnce(g, u);
      GatheredCount(HashAt(g), w.visited, u, SpecifierToken(u));
    }
    forall u | Reachable(g, starts, consumed, u) && TextIsHashed(g, u)
      ensures Within([SpecifierToken(u), TextToken(g.slots[u].m.text)], hashed)
    {
      NameOnce(g, u);
      GatheredWithin(HashAt(g), w.visited, u);
    }
  }

  lemma {:induction false} FailingDependencies(deps: seq<Dependency>, error: string)
    ensures Unresolvable(error) in AllDependencyDiagnostics(deps) <==>
            exists i :: 0 <= i < |deps| && FailsWith(deps[i], error)
  {
    if deps != [] {
      FailingDependencies(deps[1..], error);
      if i :| 0 <= i < |deps| && FailsWith(deps[i], error) {
        assert i > 0 ==> deps[1..][i - 1] == deps[i];
      }
      if i :| 0 <= i < |deps[1..]| && FailsWith(deps[1..][i], error) {
        assert deps[i + 1] == deps[1..][i];
      }
    }
  }

  lemma DiagnosticsAtModule(g: Graph, u: Url, error: string)
    ensures Unresolvable(error) in DiagnosticsAt(g)(u) <==> HasFailing(g, u, error)
  {
    if IsModule(g, u) {
      FailingDependencies(g.slots[u].m.dependencies, error);
    }
  }

  lemma ErrorsHandedOver(g: Graph, starts: set<Url>, consumed: set<Url>, w: Walker)
    requires Inv(g, starts, consumed, w) && w.pending == [] && DiagnosticsDeliver(g, w) && NodeDelivers(g, w)
    ensures HandsOverErrors(g, starts, consumed, w)
  {
    WalkVisitsReachable(g, starts, consumed, w);
    forall e
      ensures Unresolvable(e) in w.missing <==> exists u :: Reachable(g, starts, consumed, u) && HasFailing(g, u, e)
    {
      ErrorHandedOver(g, starts, consumed, w, e);
    }
  }

  lemma ErrorHandedOver(g: Graph, starts: set<Url>, consumed: set<Url>, w: Walker, e: string)
    requires DiagnosticsDeliver(g, w) && forall u :: u in w.visited <==> Reachable(g, starts, consumed, u)
    ensures Unresolvable(e) in w.missing <==> exists u :: Reachable(g, starts, consumed, u) && HasFailing(g, u, e)
  {
    var all := Gathered(DiagnosticsAt(g), w.visited);
    assert multiset(w.missing)[Unresolvable(e)] == multiset(all)[Unresolvable(e)];
    assert Unresolvable(e) in w.missing <==> Unresolvable(e) in all;
    GatheredMember(DiagnosticsAt(g), w.visited, Unresolvable(e));
    forall u ensures Unresolvable(e) in DiagnosticsAt(g)(u) <==> HasFailing(g, u, e) {
      DiagnosticsAtModule(g, u, e);
    }
  }

  /** What a finished walk hands to the checker: roots, hash input and diagnostics,
      those of consumed imports that do not resolve included. */
  ghost predicate HandsOver(
      g: Graph, starts: set<Url>, consumed: set<Url>, header: seq<Token>, imported: NpmImports, w: Walker)
  {
    && HandsOverRoots(g, starts, consumed, imported.files, w)
    && HandsOverHash(g, starts, consumed, header, w)
    && HandsOverErrors(g, starts, consumed, w)
    && (forall u :: multiset(w.missing)[MissingConfigImport(u)] == imported.unresolved[u])
  }

  lemma WalkHandsOver(
      g: Graph, starts: set<Url>, consumed: set<Url>, header: seq<Token>, imported: NpmImports, w: Walker)
    requires Good(g, starts, consumed, header, imported, w) && w.pending == []
    ensures HandsOver(g, starts, consumed, header, imported, w)
  {
    RootsHandedOver(g, starts, consumed, imported.files, w);
    HashHandedOver(g, starts, consumed, header, w);
    ErrorsHandedOver(g, starts, consumed, w);
  }
}
