/** The mutable walker over a module graph, proved against `GraphWalk`. */
module GraphWalking {
  import opened Basics
  import opened GraphWalk

  function TargetsOf(g: Graph, d: Dependency): seq<Item> {
    TargetOf(g, d.maybeType, d.isDynamic) + TargetOf(g, d.maybeCode, d.isDynamic)
  }

  lemma {:induction false} HandleConcat(seen: set<Url>, a: seq<Item>, b: seq<Item>)
    ensures MarkedAll(seen, a + b) == MarkedAll(MarkedAll(seen, a), b)
    ensures QueuedAll(seen, a + b) == QueuedAll(seen, a) + QueuedAll(MarkedAll(seen, a), b)
    decreases |a|
  {
    if a == [] {
      assert a + b == b;
    } else {
      assert (a + b)[0] == a[0] && (a + b)[1..] == a[1..] + b;
      HandleConcat(Marked(seen, a[0]), a[1..], b);
    }
  }

  lemma HandleOne(seen: set<Url>, t: Item)
    ensures MarkedAll(seen, [t]) == Marked(seen, t)
    ensures QueuedAll(seen, [t]) == Queued(seen, t)
  {
    assert [t][1..] == [];
  }

  /** Handling the first of a list of dependencies, then the others. */
  lemma DependencyStep(g: Graph, seen: set<Url>, pending: seq<Item>, deps: seq<Dependency>)
    requires deps != []
    ensures var first := TargetsOf(g, deps[0]);
            var seen' := MarkedAll(seen, first);
            && MarkedAll(seen, DependencyTargets(g, deps)) == MarkedAll(seen', DependencyTargets(g, deps[1..]))
            && pending + QueuedAll(seen, DependencyTargets(g, deps)) ==
               (pending + QueuedAll(seen, first)) + QueuedAll(seen', DependencyTargets(g, deps[1..]))
  {
    var first, rest := TargetsOf(g, deps[0]), DependencyTargets(g, deps[1..]);
    assert DependencyTargets(g, deps) == first + rest;
    HandleConcat(seen, first, rest);
    Regroup(pending, QueuedAll(seen, first), QueuedAll(MarkedAll(seen, first), rest));
  }

  lemma DiagnosticsStep(missing: seq<Diagnostic>, deps: seq<Dependency>)
    requires deps != []
    ensures missing + AllDependencyDiagnostics(deps) ==
            (missing + DependencyDiagnostics(deps[0])) + AllDependencyDiagnostics(deps[1..])
  {
    Regroup(missing, DependencyDiagnostics(deps[0]), AllDependencyDiagnostics(deps[1..]));
  }

  class GraphWalker {
    const graph: Graph
    ghost const header: seq<Token>
    var seen: set<Url>
    var pending: seq<Item>
    var hasSeenNodeBuiltin: bool
    var roots: seq<(Url, MediaType)>
    var missing: seq<Diagnostic>
    var hashed: seq<Token>
    ghost var visited: seq<Url>
    /** The specifiers walked from, the npm config imports, and what these came to. */
    ghost var starts: set<Url>
    ghost var consumed: set<Url>
    ghost var imported: NpmImports

    ghost function Value(): Walker
      reads this
    {
      Walker(seen, pending, hasSeenNodeBuiltin, roots, missing, hashed, visited)
    }

    /** Holds also in the middle of the queue loop. */
    ghost predicate Walking()
      reads this
    {
      Good(graph, starts, consumed, header, imported, Value())
    }

    /** Holds between calls. */
    ghost predicate Valid()
      reads this
    {
      Walking() && pending == []
    }

    /** `header` is what the hasher is seeded with: the npm state, the check mode
        and the compiler options. */
    constructor (graph: Graph, header: seq<Token>)
      ensures Valid() && this.graph == graph && this.header == header
      ensures starts == {} && consumed == {} && imported == NpmImports(multiset{}, multiset{})
    {
      this.graph, this.header := graph, header;
      seen, pending, hasSeenNodeBuiltin, roots, missing, hashed := {}, [], false, [], [], header;
      visited, starts, consumed, imported := [], {}, {}, NpmImports(multiset{}, multiset{});
      new;
      NewWalkerGood(graph, header);
      assert Value() == NewWalker(header);
    }

    method HandleSpecifier(specifier: Url, isDynamic: bool)
      modifies this`seen, this`pending
      ensures var t := Item(Resolve(graph, specifier), isDynamic);
              seen == MarkedAll(old(seen), [t]) && pending == old(pending) + QueuedAll(old(seen), [t])
    {
      var u := Resolve(graph, specifier);
      HandleOne(seen, Item(u, isDynamic));
      if isDynamic {
        if u !in seen {
          pending := pending + [Item(u, true)];
        }
      } else if u !in seen {
        seen := seen + {u};
        pending := pending + [Item(u, false)];
      }
    }

    method HandleResolution(r: Resolution, isDynamic: bool)
      modifies this`seen, this`pending
      ensures var ts := TargetOf(graph, r, isDynamic);
              seen == MarkedAll(old(seen), ts) && pending == old(pending) + QueuedAll(old(seen), ts)
    {
      match r
      case Resolved(url) => HandleSpecifier(url, isDynamic);
      case ResolutionFailed(_) =>
      case NoResolution =>
    }

    /** Walks both the type and the code resolution, then surfaces an error. */
    method HandleDependency(d: Dependency)
      modifies this`seen, this`pending, this`missing
      ensures seen == MarkedAll(old(seen), TargetsOf(graph, d))
      ensures pending == old(pending) + QueuedAll(old(seen), TargetsOf(graph, d))
      ensures missing == old(missing) + DependencyDiagnostics(d)
    {
      HandleConcat(seen, TargetOf(graph, d.maybeType, d.isDynamic), TargetOf(graph, d.maybeCode, d.isDynamic));
      HandleResolution(d.maybeType, d.isDynamic);
      HandleResolution(d.maybeCode, d.isDynamic);
      SurfaceError(d);
    }

    /** Reports the code error only when there is no type resolution. */
    method SurfaceError(d: Dependency)
      modifies this`missing
      ensures missing == old(missing) + DependencyDiagnostics(d)
    {
      if d.isDynamic {
        return;
      }
      var toCheck := if d.maybeType.NoResolution? then d.maybeCode else d.maybeType;
      if toCheck.ResolutionFailed? && toCheck.diagnostic.Some? {
        missing := missing + [Unresolvable(toCheck.diagnostic.value)];
      }
    }

    method HandleDependencies(deps: seq<Dependency>)
      modifies this`seen, this`pending, this`missing
      ensures seen == MarkedAll(old(seen), DependencyTargets(graph, deps))
      ensures pending == old(pending) + QueuedAll(old(seen), DependencyTargets(graph, deps))
      ensures missing == old(missing) + AllDependencyDiagnostics(deps)
    {
      for i := 0 to |deps|
        invariant MarkedAll(seen, DependencyTargets(graph, deps[i..])) ==
                  MarkedAll(old(seen), DependencyTargets(graph, deps))
        invariant pending + QueuedAll(seen, DependencyTargets(graph, deps[i..])) ==
                  old(pending) + QueuedAll(old(seen), DependencyTargets(graph, deps))
        invariant missing + AllDependencyDiagnostics(deps[i..]) == old(missing) + AllDependencyDiagnostics(deps)
      {
        assert deps[i..][0] == deps[i] && deps[i..][1..] == deps[i + 1..];
        DependencyStep(graph, seen, pending, deps[i..]);
        DiagnosticsStep(missing, deps[i..]);
        HandleDependency(deps[i]);
      }
      assert deps[|deps|..] == [];
    }

    method Expand(u: Url, m: Module)
      requires IsModule(graph, u) && graph.slots[u].m == m
      modifies this`seen, this`pending, this`hasSeenNodeBuiltin, this`roots, this`missing, this`hashed, this`visited
      ensures Value() == Visit(graph, old(Value()), u, m)
    {
      seen := seen + {u};
      visited := visited + [u];
      hashed := hashed + HashOf(u, m);
      if CheckEntry(m).Some? {
        roots := roots + [(u, CheckEntry(m).value)];
      }
      if m.kind == ExternalModule && IsDeclaration(m.mediaType) {
        roots := roots + [(u, m.mediaType)];
      }
      if m.kind == NodeModule {
        hasSeenNodeBuiltin := true;
      }
      HandleTargets(m);
    }

    /** Follows a module's dependencies, then its types dependency, unless the
        module is a declaration whose options skip library checks. */
    method HandleTargets(m: Module)
      modifies this`seen, this`pending, this`missing
      ensures seen == MarkedAll(old(seen), Targets(graph, m))
      ensures pending == old(pending) + QueuedAll(old(seen), Targets(graph, m))
      ensures missing == old(missing) + ModuleDiagnostics(m)
    {
      if IsCut(m) || (m.kind != JsModule && m.kind != WasmModule) {
        return;
      }
      ghost var ts := DependencyTargets(graph, m.dependencies);
      HandleDependencies(m.dependencies);
      if m.kind == JsModule && m.typesDependency.Some? {
        ghost var types := [Item(Resolve(graph, m.typesDependency.value), false)];
        HandleConcat(old(seen), ts, types);
        Regroup(old(pending), QueuedAll(old(seen), ts), QueuedAll(MarkedAll(old(seen), ts), types));
        HandleSpecifier(m.typesDependency.value, false);
      } else {
        assert ts + [] == ts;
      }
    }

    method PopPending()
      requires pending != []
      modifies this`seen, this`pending, this`hasSeenNodeBuiltin, this`roots, this`missing, this`hashed, this`visited
      ensures Value() == Pop(graph, old(Value()))
    {
      var item := pending[0];
      pending := pending[1..];
      if item.url !in graph.slots {
        return;
      }
      match graph.slots[item.url]
      case Failed(isDiagnosable) =>
        if !item.isDynamic && isDiagnosable {
          missing := missing + [MissingModule(item.url)];
        }
      case Loaded(m) =>
        if item.isDynamic && item.url in seen {
          return;
        }
        Expand(item.url, m);
    }

    method ResolvePending()
      requires Walking()
      modifies this`seen, this`pending, this`hasSeenNodeBuiltin, this`roots, this`missing, this`hashed, this`visited
      ensures Valid()
    {
      ghost var w := Value();
      while pending != []
        invariant Value() == w
        invariant Good(graph, starts, consumed, header, imported, w)
        decreases |Unvisited(graph, w)|, |w.pending|
      {
        PopKeepsGood(graph, starts, consumed, header, imported, w);
        PopPending();
        w := Pop(graph, w);
      }
    }

    method AddRoot(root: Url)
      requires Valid()
      modifies this
      ensures Valid() && starts == old(starts) + {Resolve(graph, root)}
      ensures consumed == old(consumed) && imported == old(imported)
    {
      var u := Resolve(graph, root);
      StartKeepsGood(graph, starts, consumed, header, imported, Value(), u);
      Enqueue(u);
      ResolvePending();
    }

    method Enqueue(u: Url)
      modifies this`seen, this`pending, this`starts
      ensures Value() == Start(old(Value()), u) && starts == old(starts) + {u}
    {
      if u !in seen {
        seen := seen + {u};
        pending := pending + [Item(u, false)];
      }
      starts := starts + {u};
    }

    /** `npm` is what parsing and resolving the specifier yields. A specifier the
        walk has already marked is left alone. */
    method AddConfigImport(specifier: Url, npm: NpmReference)
      requires Valid()
      modifies this
      ensures Valid()
      ensures starts == old(starts) + ImportStart(graph, (specifier, npm))
      ensures var u := Resolve(graph, specifier);
              if npm.NotNpm? || u in old(seen) then consumed == old(consumed) && imported == old(imported)
              else consumed == old(consumed) + {u} && imported == Joined(old(imported), u, npm)
    {
      var u := Resolve(graph, specifier);
      if npm.NotNpm? {
        AddRoot(specifier);
        return;
      }
      if u in seen {
        return;
      }
      ConsumeKeepsGood(graph, starts, consumed, header, imported, Value(), u, npm);
      ConsumeImport(u, npm);
    }

    /** Marks an npm config import as seen without walking it. */
    method ConsumeImport(u: Url, npm: NpmReference)
      requires !npm.NotNpm?
      modifies this`seen, this`roots, this`missing, this`consumed, this`imported
      ensures Value() == Consume(old(Value()), u, npm)
      ensures consumed == old(consumed) + {u} && imported == Joined(old(imported), u, npm)
    {
      MarkConsumed(u, npm);
      consumed, imported := consumed + {u}, Joined(imported, u, npm);
    }

    method MarkConsumed(u: Url, npm: NpmReference)
      requires !npm.NotNpm?
      modifies this`seen, this`roots, this`missing
      ensures Value() == Consume(old(Value()), u, npm)
    {
      seen := seen + {u};
      if npm.NpmFile? {
        roots := roots + [(npm.url, npm.mediaType)];
      } else {
        missing := missing + [MissingConfigImport(u)];
      }
    }

    method AddConfigImports(imports: seq<(Url, NpmReference)>)
      requires Valid()
      modifies this
      ensures Valid() && starts == old(starts) + ImportStarts(graph, imports, |imports|)
      ensures (consumed, imported) == Consumption(graph, old(starts), old(consumed), old(imported), imports, |imports|)
    {
      for i := 0 to |imports|
        invariant Valid() && starts == old(starts) + ImportStarts(graph, imports, i)
        invariant (consumed, imported) == Consumption(graph, old(starts), old(consumed), old(imported), imports, i)
      {
        UnionRegroup(old(starts), ImportStarts(graph, imports, i), ImportStart(graph, imports[i]));
        SeenIsMet(graph, starts, consumed, Value(), Resolve(graph, imports[i].0));
        AddConfigImport(imports[i].0, imports[i].1);
      }
    }

    method AddRoots(specifiers: seq<Url>)
      requires Valid()
      modifies this
      ensures Valid() && starts == old(starts) + RootStarts(graph, specifiers, |specifiers|)
      ensures consumed == old(consumed) && imported == old(imported)
    {
      for i := 0 to |specifiers|
        invariant Valid() && starts == old(starts) + RootStarts(graph, specifiers, i)
        invariant consumed == old(consumed) && imported == old(imported)
      {
        UnionRegroup(old(starts), RootStarts(graph, specifiers, i), {Resolve(graph, specifiers[i])});
        AddRoot(specifiers[i]);
      }
    }

    /** A whole walk: config imports first, then roots. What it visits, reports and
        consumes is determined by the graph, the imports and the roots. */
    method Walk(imports: seq<(Url, NpmReference)>, specifiers: seq<Url>)
      requires Valid() && starts == {} && consumed == {}
      modifies this
      ensures Valid()
      ensures (consumed, imported) == Consumption(graph, {}, {}, old(imported), imports, |imports|)
      ensures starts == ImportStarts(graph, imports, |imports|) + RootStarts(graph, specifiers, |specifiers|)
      ensures forall u :: u in visited <==> Reachable(graph, starts, consumed, u)
      ensures forall i, j :: 0 <= i < j < |visited| ==> visited[i] != visited[j]
      ensures forall u :: multiset(missing)[MissingModule(u)] ==
                if IsDiagnosable(graph, u) && u !in consumed && NeededStatically(graph, starts, consumed, u) then 1 else 0
      ensures HandsOver(graph, starts, consumed, header, imported, Value())
    {
      AddConfigImports(imports);
      AddRoots(specifiers);
      WalkHandsOver(graph, starts, consumed, header, imported, Value());
      WalkVisitsReachable(graph, starts, consumed, Value());
      forall u
        ensures multiset(missing)[MissingModule(u)] ==
          if IsDiagnosable(graph, u) && u !in consumed && NeededStatically(graph, starts, consumed, u) then 1 else 0
      {
        WalkDiagnosesNeeded(graph, starts, consumed, Value(), u);
      }
    }
  }

  /** The specifiers consumed after the first `n` config imports, and what they came to,
      each once: an npm import is consumed unless an earlier import consumed it,
      needs it statically or reaches it as a module. */
  ghost function Consumption(
      g: Graph, starts: set<Url>, consumed: set<Url>, imported: NpmImports,
      imports: seq<(Url, NpmReference)>, n: nat): (set<Url>, NpmImports)
    requires n <= |imports|
  {
    if n == 0 then (consumed, imported) else
    var (before, sofar) := Consumption(g, starts, consumed, imported, imports, n - 1);
    var u, npm := Resolve(g, imports[n - 1].0), imports[n - 1].1;
    if npm.NotNpm? || Met(g, starts + ImportStarts(g, imports, n - 1), before, u) then (before, sofar)
    else (before + {u}, Joined(sofar, u, npm))
  }

  /** The first `n` config imports that are not npm references, resolved. */
  ghost function ImportStarts(g: Graph, imports: seq<(Url, NpmReference)>, n: nat): set<Url>
    requires n <= |imports|
  {
    if n == 0 then {} else
    ImportStarts(g, imports, n - 1) + ImportStart(g, imports[n - 1])
  }

  ghost function ImportStart(g: Graph, one: (Url, NpmReference)): set<Url> {
    if one.1.NotNpm? then {Resolve(g, one.0)} else {}
  }

  lemma UnionRegroup(a: set<Url>, b: set<Url>, c: set<Url>)
    ensures a + b + c == a + (b + c)
  {
  }

  /** The first `n` roots, resolved. */
  ghost function RootStarts(g: Graph, roots: seq<Url>, n: nat): set<Url>
    requires n <= |roots|
  {
    if n == 0 then {} else RootStarts(g, roots, n - 1) + {Resolve(g, roots[n - 1])}
  }
}
