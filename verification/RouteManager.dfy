/** The mutable registry: route objects shared by the id map and the index. Each
    method is proved to be one event of `RouteRegistry.Apply`. */
module RouteManaging {
  import opened Basics
  import opened RouteRegistry

  class DynamicRoute {
    const id: string
    var path: string
    var httpMethod: string
    var routeType: string
    var isActive: bool
    var usageCount: nat

    constructor (r: Route)
      ensures Value() == r
    {
      id, path, httpMethod, routeType := r.id, r.path, r.httpMethod, r.routeType;
      isActive, usageCount := r.isActive, r.usageCount;
    }

    function Value(): Route
      reads this
    {
      Route(id, path, httpMethod, routeType, isActive, usageCount)
    }
  }

  ghost predicate Agrees<R>(s: State<R>) {
    Wf(s) && Sound(s) && Complete(s) && AllNormal(s)
  }

  lemma AddSound<R>(s: State<R>, ref: R, r: Route)
    requires Wf(s) && Sound(s) && ref !in s.objects && r.id !in s.routes
    ensures Sound(Add(s, ref, r))
  {
    var s' := Add(s, ref, r);
    forall k | k in s'.index ensures Live(s', s'.index[k]) && Key(s'.objects[s'.index[k]]) == k {
      if k != Key(r) {
        assert Live(s, s.index[k]) && Key(s.objects[s.index[k]]) == k;
      }
    }
  }

  lemma AddComplete<R>(s: State<R>, ref: R, r: Route)
    requires Wf(s) && Complete(s) && ref !in s.objects && r.id !in s.routes && Key(r) !in s.index
    ensures Wf(Add(s, ref, r)) && Complete(Add(s, ref, r))
  {
    var s' := Add(s, ref, r);
    forall id | id in s'.routes ensures Indexed(s', id) {
      if id != r.id {
        assert Indexed(s, id);
      }
    }
  }

  /** Adding a route under a new id and a new key keeps map and index in agreement. */
  lemma AddKeepsAgreement<R>(s: State<R>, ref: R, r: Route)
    requires Agrees(s) && Normal(r)
    requires ref !in s.objects && r.id !in s.routes && Key(r) !in s.index
    ensures Agrees(Add(s, ref, r))
  {
    AddSound(s, ref, r);
    AddComplete(s, ref, r);
    var s' := Add(s, ref, r);
    forall o | o in s'.objects ensures Normal(s'.objects[o]) {
      assert o != ref ==> Normal(s.objects[o]);
    }
  }

  /** Four routes with different ids and keys, in normal form. */
  ghost predicate Distinct(d1: Route, d2: Route, d3: Route, d4: Route) {
    && Normal(d1) && Normal(d2) && Normal(d3) && Normal(d4)
    && d1.id != d2.id && d1.id != d3.id && d1.id != d4.id && d2.id != d3.id && d2.id != d4.id && d3.id != d4.id
    && Key(d1) != Key(d2) && Key(d1) != Key(d3) && Key(d1) != Key(d4)
    && Key(d2) != Key(d3) && Key(d2) != Key(d4) && Key(d3) != Key(d4)
  }

  /** The routes every manager starts with. */
  method DefaultRoutes() returns (d1: Route, d2: Route, d3: Route, d4: Route)
    ensures Distinct(d1, d2, d3, d4)
    ensures d1 == Route("route_default_1", "/dynamic/hello", "GET", "json", true, 0)
    ensures d2 == Route("route_default_2", "/dynamic/status", "GET", "json", true, 0)
    ensures d3 == Route("route_default_3", "/dynamic/delay", "GET", "json", true, 0)
    ensures d4 == Route("route_default_4", "/dynamic/echo", "POST", "echo", true, 0)
  {
    d1 := DefaultRoute("route_default_1", "/dynamic/hello", "GET", "json");
    d2 := DefaultRoute("route_default_2", "/dynamic/status", "GET", "json");
    d3 := DefaultRoute("route_default_3", "/dynamic/delay", "GET", "json");
    d4 := DefaultRoute("route_default_4", "/dynamic/echo", "POST", "echo");
    DifferentInitials(d1, d2, d3, d4);
  }

  /** A route made from a path with the prefix and an upper-case method. */
  method DefaultRoute(id: string, path: string, httpMethod: string, routeType: string) returns (d: Route)
    requires PREFIX <= path && Upper(httpMethod) == httpMethod
    ensures Normal(d) && d == Route(id, path, httpMethod, routeType, true, 0)
  {
    d := NewRoute(id, path, httpMethod, routeType);
  }

  lemma DifferentInitials(d1: Route, d2: Route, d3: Route, d4: Route)
    requires Normal(d1) && Normal(d2) && Normal(d3) && Normal(d4)
    requires |d1.id| == |d2.id| == |d3.id| == |d4.id| == 15
    requires d1.id[14] == '1' && d2.id[14] == '2' && d3.id[14] == '3' && d4.id[14] == '4'
    requires |d1.httpMethod| == |d2.httpMethod| == |d3.httpMethod| == 3 && |d4.httpMethod| == 4
    requires d1.httpMethod[0] == d2.httpMethod[0] == d3.httpMethod[0] == 'G' && d4.httpMethod[0] == 'P'
    requires |d1.path| > 9 && |d2.path| > 9 && |d3.path| > 9
    requires d1.path[9] == 'h' && d2.path[9] == 's' && d3.path[9] == 'd'
    ensures Distinct(d1, d2, d3, d4)
  {
    assert Key(d1)[13] == 'h' && Key(d2)[13] == 's' && Key(d3)[13] == 'd';
    assert Key(d1)[0] == Key(d2)[0] == Key(d3)[0] == 'G' && Key(d4)[0] == 'P';
  }

  /** The four routes are registered under their ids, and no other route is. */
  ghost predicate HasExactly<R>(s: State<R>, d1: Route, d2: Route, d3: Route, d4: Route)
    requires Wf(s)
  {
    && (forall id :: id in s.routes <==> id == d1.id || id == d2.id || id == d3.id || id == d4.id)
    && s.objects[s.routes[d1.id]] == d1 && s.objects[s.routes[d2.id]] == d2
    && s.objects[s.routes[d3.id]] == d3 && s.objects[s.routes[d4.id]] == d4
  }

  lemma DistinctRoutesAgree<R>(r1: R, r2: R, r3: R, r4: R, d1: Route, d2: Route, d3: Route, d4: Route)
    requires r1 != r2 && r1 != r3 && r1 != r4 && r2 != r3 && r2 != r4 && r3 != r4
    requires Distinct(d1, d2, d3, d4)
    ensures Agrees(Add(Add(Add(Add(Empty(), r1, d1), r2, d2), r3, d3), r4, d4))
  {
    var s := Add(Add(Empty(), r1, d1), r2, d2);
    AddTwo(Empty(), r1, d1, r2, d2);
    assert s.objects == map[r1 := d1, r2 := d2];
    assert s.routes == map[d1.id := r1, d2.id := r2] && s.index == map[Key(d1) := r1, Key(d2) := r2];
    AddTwo(s, r3, d3, r4, d4);
  }

  lemma FourRoutesRegistered<R>(r1: R, r2: R, r3: R, r4: R, d1: Route, d2: Route, d3: Route, d4: Route)
    requires r1 != r2 && r1 != r3 && r1 != r4 && r2 != r3 && r2 != r4 && r3 != r4
    requires d1.id != d2.id && d1.id != d3.id && d1.id != d4.id && d2.id != d3.id && d2.id != d4.id && d3.id != d4.id
    requires Wf(Add(Add(Add(Add(Empty(), r1, d1), r2, d2), r3, d3), r4, d4))
    ensures HasExactly(Add(Add(Add(Add(Empty(), r1, d1), r2, d2), r3, d3), r4, d4), d1, d2, d3, d4)
  {
  }

  lemma AddTwo<R>(s: State<R>, r1: R, d1: Route, r2: R, d2: Route)
    requires Agrees(s) && Normal(d1) && Normal(d2)
    requires r1 !in s.objects && r2 !in s.objects && r1 != r2
    requires d1.id !in s.routes && d2.id !in s.routes && d1.id != d2.id
    requires Key(d1) !in s.index && Key(d2) !in s.index && Key(d1) != Key(d2)
    ensures Agrees(Add(Add(s, r1, d1), r2, d2))
  {
    AddKeepsAgreement(s, r1, d1);
    AddKeepsAgreement(Add(s, r1, d1), r2, d2);
  }

  class DynamicRouteManager {
    var routes: map<string, DynamicRoute>
    var routeByPath: map<string, DynamicRoute>
    /** Every route object made so far, deleted ones included. */
    ghost var objects: set<DynamicRoute>

    ghost function View(): State<DynamicRoute>
      reads this, objects
    {
      State(routes, routeByPath, map o | o in objects :: o.Value())
    }

    ghost predicate Valid()
      reads this, objects
    {
      Wf(View())
    }

    constructor ()
      ensures Agrees(View()) && fresh(objects)
      ensures HasExactly(View(),
                         Route("route_default_1", "/dynamic/hello", "GET", "json", true, 0),
                         Route("route_default_2", "/dynamic/status", "GET", "json", true, 0),
                         Route("route_default_3", "/dynamic/delay", "GET", "json", true, 0),
                         Route("route_default_4", "/dynamic/echo", "POST", "echo", true, 0))
    {
      routes, routeByPath, objects := map[], map[], {};
      new;
      assert View() == Empty();
      var d1, d2, d3, d4 := DefaultRoutes();
      AddFour(d1, d2, d3, d4);
    }

    method AddFour(d1: Route, d2: Route, d3: Route, d4: Route)
      requires View() == Empty() && Distinct(d1, d2, d3, d4)
      modifies this
      ensures Agrees(View()) && HasExactly(View(), d1, d2, d3, d4) && fresh(objects - old(objects))
    {
      ghost var r1, r2, r3, r4 := AddEach(d1, d2, d3, d4);
      DistinctRoutesAgree(r1, r2, r3, r4, d1, d2, d3, d4);
      FourRoutesRegistered(r1, r2, r3, r4, d1, d2, d3, d4);
    }

    method AddEach(d1: Route, d2: Route, d3: Route, d4: Route)
      returns (ghost r1: DynamicRoute, ghost r2: DynamicRoute, ghost r3: DynamicRoute, ghost r4: DynamicRoute)
      modifies this
      ensures r1 != r2 && r1 != r3 && r1 != r4 && r2 != r3 && r2 != r4 && r3 != r4
      ensures objects == old(objects) + {r1, r2, r3, r4} && fresh({r1, r2, r3, r4})
      ensures View() == Add(Add(Add(Add(old(View()), r1, d1), r2, d2), r3, d3), r4, d4)
    {
      r1 := AddNew(d1);
      r2 := AddNew(d2);
      r3 := AddNew(d3);
      r4 := AddNew(d4);
    }

    /** Makes a route object and files it under its id and its key. */
    method AddNew(route: Route) returns (r: DynamicRoute)
      modifies this
      ensures fresh(r) && objects == old(objects) + {r}
      ensures View() == Add(old(View()), r, route)
    {
      r := new DynamicRoute(route);
      routes := routes[r.id := r];
      routeByPath := routeByPath[KeyOf(r.httpMethod, r.path) := r];
      objects := objects + {r};
      assert View().objects == old(View()).objects[r := route];
    }

    /** `id` is the random id drawn for the route; None is a bad route type. */
    method CreateRoute(id: string, path: string, httpMethod: string, routeType: string)
      returns (r: Option<DynamicRoute>)
      requires Valid()
      modifies this
      ensures Valid()
      ensures r.Some? <==> routeType in ROUTE_TYPES
      ensures r.None? ==> View() == old(View()) && objects == old(objects)
      ensures r.Some? ==>
                && fresh(r.value) && objects == old(objects) + {r.value}
                && View() == Apply(old(View()), Create(r.value, id, path, httpMethod, routeType)).0
    {
      if routeType !in ROUTE_TYPES {
        return None;
      }
      var made := AddNew(NewRoute(id, path, httpMethod, routeType));
      r := Some(made);
    }

    method UpdateRoute(id: string, edits: seq<Edit>) returns (outcome: Outcome)
      requires Valid()
      modifies this`routeByPath, objects
      ensures Valid() && objects == old(objects)
      ensures (View(), outcome) == Apply(old(View()), Update(id, edits))
    {
      if id !in routes {
        return NotFound;
      }
      var route := routes[id];
      assert route in View().objects;
      var oldKey := KeyOf(route.httpMethod, route.path);
      var ok := AssignAll(route, edits);
      assert View().objects == old(View()).objects[route := route.Value()];
      if !ok {
        return Raised;
      }
      var newKey := KeyOf(route.httpMethod, route.path);
      if oldKey != newKey {
        if oldKey !in routeByPath {
          return Raised;
        }
        routeByPath := (routeByPath - {oldKey})[newKey := route];
        assert View().objects == old(View()).objects[route := route.Value()];
      }
      outcome := Done;
    }

    /** The assignments of an update, in order, up to the first that raises. */
    method AssignAll(route: DynamicRoute, edits: seq<Edit>) returns (ok: bool)
      modifies route
      ensures (route.Value(), ok) == ApplyEdits(old(route.Value()), edits)
    {
      for i := 0 to |edits|
        invariant ApplyEdits(old(route.Value()), edits) == ApplyEdits(route.Value(), edits[i..])
      {
        assert edits[i..][0] == edits[i] && edits[i..][1..] == edits[i + 1..];
        ok := Assign(route, edits[i]);
        if !ok {
          return;
        }
      }
      ok := true;
    }

    /** One assignment of an update; false when it raises. */
    method Assign(route: DynamicRoute, e: Edit) returns (ok: bool)
      modifies route
      ensures ok == ApplyEdit(old(route.Value()), e).Some?
      ensures route.Value() == if ok then ApplyEdit(old(route.Value()), e).value else old(route.Value())
    {
      ok := ApplyEdit(route.Value(), e).Some?;
      if !ok {
        return;
      }
      match e
      case SetPath(v) => route.path := NormalPath(v.value);
      case SetMethod(v) => route.httpMethod := Upper(v.value);
      case SetType(v) => route.routeType := v.value;
      case SetOther =>
    }

    method DeleteRoute(id: string) returns (outcome: Outcome)
      requires Valid()
      modifies this`routes, this`routeByPath
      ensures Valid()
      ensures (View(), outcome) == Apply(old(View()), Delete(id))
    {
      if id !in routes {
        return NotFound;
      }
      var route := routes[id];
      assert route in View().objects;
      var key := KeyOf(route.httpMethod, route.path);
      routes := routes - {id};
      assert View().objects == old(View()).objects;
      if key !in routeByPath {
        return Raised;
      }
      routeByPath := routeByPath - {key};
      assert View().objects == old(View()).objects;
      outcome := Done;
    }

    method ToggleRoute(id: string, isActive: bool) returns (outcome: Outcome)
      requires Valid()
      modifies objects
      ensures Valid()
      ensures (View(), outcome) == Apply(old(View()), Toggle(id, isActive))
    {
      if id !in routes {
        return NotFound;
      }
      assert routes[id] in View().objects;
      routes[id].isActive := isActive;
      assert View().objects == old(View()).objects[routes[id] := routes[id].Value()];
      outcome := Done;
    }

    method IncrementUsage(id: string)
      requires Valid()
      modifies objects
      ensures Valid()
      ensures View() == Apply(old(View()), Use(id)).0
    {
      if id in routes {
        assert routes[id] in View().objects;
        routes[id].usageCount := routes[id].usageCount + 1;
        assert View().objects == old(View()).objects[routes[id] := routes[id].Value()];
      }
    }

    method GetRouteByPath(httpMethod: string, path: string) returns (r: Option<DynamicRoute>)
      ensures r == Lookup(View(), httpMethod, path)
      ensures Wf(View()) && Sound(View()) && r.Some? ==>
                && r.value.id in routes && routes[r.value.id] == r.value
                && r.value.httpMethod + ":" + r.value.path == Upper(httpMethod) + ":" + path
      ensures Wf(View()) && Sound(View()) && Complete(View()) ==>
                (r.None? <==> forall id :: id in routes ==>
                   routes[id].httpMethod + ":" + routes[id].path != Upper(httpMethod) + ":" + path)
    {
      if Wf(View()) && Sound(View()) {
        LookupIsExact(View(), httpMethod, path);
      }
      var key := KeyOf(Upper(httpMethod), path);
      r := if key in routeByPath then Some(routeByPath[key]) else None;
    }
  }
}
