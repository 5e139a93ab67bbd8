/** The load balancer: server objects that the endpoints mutate, and the counters
    that every selection strategy leaves behind for the next one. */
module LoadBalancing {
  import opened Basics
  import opened WeightedRoundRobin

  datatype Strategy = RoundRobin | Random | LeastConnections | Weighted

  class BackendServer {
    const id: string
    var weight: int
    var isHealthy: bool
    var activeConnections: nat
    var totalRequests: nat
    var totalFailures: nat

    constructor (id: string, weight: int)
      ensures this.id == id && this.weight == weight && isHealthy
      ensures activeConnections == totalRequests == totalFailures == 0
    {
      this.id, this.weight, isHealthy := id, weight, true;
      activeConnections, totalRequests, totalFailures := 0, 0, 0;
    }
  }

  datatype Candidates = Candidates(servers: seq<BackendServer>, weights: seq<int>)

  function HealthyOnes(servers: seq<BackendServer>): seq<BackendServer>
    reads servers`isHealthy
  {
    if servers == [] then [] else
    (if servers[0].isHealthy then [servers[0]] else []) + HealthyOnes(servers[1..])
  }

  lemma {:induction false} HealthyConcat(a: seq<BackendServer>, b: seq<BackendServer>)
    ensures HealthyOnes(a + b) == HealthyOnes(a) + HealthyOnes(b)
  {
    if a == [] {
      assert a + b == b;
    } else {
      assert (a + b)[1..] == a[1..] + b;
      HealthyConcat(a[1..], b);
    }
  }

  lemma HealthySingle(s: BackendServer)
    ensures HealthyOnes([s]) == if s.isHealthy then [s] else []
  {
    assert [s][1..] == [];
  }

  /** Order and multiplicity: a server that stands between `a` and `b` is, when it is
      healthy, right between the healthy ones of `a` and those of `b`. */
  lemma HealthyInOrder(a: seq<BackendServer>, s: BackendServer, b: seq<BackendServer>)
    ensures HealthyOnes(a + [s] + b) == HealthyOnes(a) + (if s.isHealthy then [s] else []) + HealthyOnes(b)
  {
    HealthySingle(s);
    HealthyConcat(a, [s]);
    HealthyConcat(a + [s], b);
  }

  /** The healthy servers in registration order, with their weights. */
  function Healthy(servers: seq<BackendServer>): (c: Candidates)
    reads servers`isHealthy, servers`weight
    ensures |c.servers| == |c.weights|
  {
    if servers == [] then Candidates([], []) else
    var rest := Healthy(servers[1..]);
    if servers[0].isHealthy then
      Candidates([servers[0]] + rest.servers, [servers[0].weight] + rest.weights)
    else
      rest
  }

  /** Every candidate is a healthy server with its weight, and every healthy server is
      a candidate. */
  lemma {:induction false} HealthyMembers(servers: seq<BackendServer>)
    ensures forall s :: s in Healthy(servers).servers ==> s in servers && s.isHealthy
    ensures forall s :: s in servers && s.isHealthy ==> s in Healthy(servers).servers
    ensures forall i :: 0 <= i < |Healthy(servers).servers| ==>
              Healthy(servers).weights[i] == Healthy(servers).servers[i].weight
  {
    if servers != [] {
      assert servers == [servers[0]] + servers[1..];
      HealthyMembers(servers[1..]);
      if servers[0].isHealthy {
        assert Healthy(servers).servers == [servers[0]] + Healthy(servers[1..]).servers;
      } else {
        assert Healthy(servers).servers == Healthy(servers[1..]).servers;
      }
    }
  }

  /** The candidates are exactly the healthy servers, in order, with their weights. */
  lemma {:induction false} CandidatesInOrder(servers: seq<BackendServer>)
    ensures Healthy(servers).servers == HealthyOnes(servers)
    ensures |Healthy(servers).weights| == |HealthyOnes(servers)|
    ensures forall i :: 0 <= i < |HealthyOnes(servers)| ==> Healthy(servers).weights[i] == HealthyOnes(servers)[i].weight
  {
    HealthyMembers(servers);
    if servers != [] {
      CandidatesInOrder(servers[1..]);
    }
  }

  /** The active connections of each server. */
  ghost function Loads(servers: seq<BackendServer>): (loads: seq<nat>)
    reads servers`activeConnections
    ensures |loads| == |servers| && forall i :: 0 <= i < |servers| ==> loads[i] == servers[i].activeConnections
  {
    if servers == [] then [] else Loads(servers[..|servers| - 1]) + [servers[|servers| - 1].activeConnections]
  }

  /** The first of the candidates with the fewest active connections. */
  ghost predicate LeastConnected(s: BackendServer, candidates: seq<BackendServer>, loads: seq<nat>) {
    && |loads| == |candidates|
    && exists k :: 0 <= k < |candidates| && candidates[k] == s && IsFirstLeast(loads, k)
  }

  ghost predicate IsFirstLeast(loads: seq<nat>, k: nat)
    requires k < |loads|
  {
    (forall j :: 0 <= j < |loads| ==> loads[k] <= loads[j]) && (forall j :: 0 <= j < k ==> loads[k] < loads[j])
  }

  twostate lemma {:induction false} HealthyUnchanged(servers: seq<BackendServer>)
    requires forall s :: s in servers ==> s.isHealthy == old(s.isHealthy) && s.weight == old(s.weight)
    ensures Healthy(servers) == old(Healthy(servers))
  {
    if servers != [] {
      HealthyUnchanged(servers[1..]);
    }
  }

  /** What decides a selection: the strategy, the candidates, and their connections. */
  datatype Setting = Setting(strategy: Strategy, candidates: Candidates, loads: seq<nat>)

  /** What selections leave behind: the weighted cursor and the round-robin index. */
  datatype Marks = Marks(cursor: Cursor, turn: nat)

  /** Whether a selection reaches the weighted loop. */
  ghost predicate WeightedPath(now: Setting) {
    var c := now.candidates;
    now.strategy == Weighted && |c.servers| == |c.weights| > 0 && Sum(c.weights) != 0
  }

  /** Whether a selection takes the servers in turn; the weighted strategy does so
      when the weights add up to zero. */
  ghost predicate TakesTurns(now: Setting) {
    var c := now.candidates;
    c.servers != [] && (now.strategy == RoundRobin || (now.strategy == Weighted && Sum(c.weights) == 0))
  }

  /** What one selection does, by each strategy; none is selected exactly when there are
      no candidates. */
  ghost predicate Selected(now: Setting, before: Marks, s: Option<BackendServer>, after: Marks) {
    var c := now.candidates;
    && (s == None <==> c.servers == [])
    && (s.Some? ==> s.value in c.servers)
    && (WeightedPath(now) ==>
          && after == Marks(Select(c.weights, before.cursor), before.turn)
          && s == Some(c.servers[after.cursor.index]))
    && (TakesTurns(now) ==>
          && after == Marks(before.cursor, before.turn + 1)
          && s == Some(c.servers[Wrapped(before.turn, |c.servers|)]))
    && (now.strategy == LeastConnections && s.Some? ==> LeastConnected(s.value, c.servers, now.loads))
    && (s == None || now.strategy == Random || now.strategy == LeastConnections ==> after == before)
  }

  /** What `n` selections do. */
  ghost predicate SelectedAll(now: Setting, start: Marks, n: nat, picks: seq<BackendServer>, after: Marks) {
    var c := now.candidates;
    && |picks| == (if c.servers == [] then 0 else n)
    && (forall s :: s in picks ==> s in c.servers)
    && (WeightedPath(now) ==>
          && after == Marks(AfterSelections(c.weights, start.cursor, n), start.turn)
          && Follows(picks, c.servers, Selections(c.weights, start.cursor, n)))
    && (TakesTurns(now) ==>
          && after == Marks(start.cursor, start.turn + n)
          && Follows(picks, c.servers, Turns(|c.servers|, start.turn, n)))
    && (now.strategy == LeastConnections ==> forall s :: s in picks ==> LeastConnected(s, c.servers, now.loads))
    && (c.servers == [] || now.strategy == Random || now.strategy == LeastConnections ==> after == start)
  }

  lemma NoneSelected(now: Setting, start: Marks)
    ensures SelectedAll(now, start, 0, [], start)
  {
  }

  lemma OneMoreSelected(now: Setting, start: Marks, n: nat, picks: seq<BackendServer>, before: Marks,
                        s: Option<BackendServer>, after: Marks)
    requires SelectedAll(now, start, n, picks, before) && Selected(now, before, s, after)
    ensures SelectedAll(now, start, n + 1, if s.Some? then picks + [s.value] else picks, after)
  {
    var c := now.candidates;
    if WeightedPath(now) {
      FollowsExtend(picks, c.servers, c.weights, start.cursor, n);
    } else if TakesTurns(now) {
      TurnFollows(picks, c.servers, start.turn, n);
    }
  }

  twostate lemma SettingUnchanged(b: LoadBalancer)
    requires b.servers == old(b.servers) && b.strategy == old(b.strategy)
    requires forall s :: s in b.servers ==>
               && s.isHealthy == old(s.isHealthy) && s.weight == old(s.weight)
               && s.activeConnections == old(s.activeConnections)
    ensures b.Now() == old(b.Now())
  {
    HealthyUnchanged(b.servers);
    HealthyMembers(b.servers);
    LoadsUnchanged(Healthy(b.servers).servers);
  }

  twostate lemma LoadsUnchanged(servers: seq<BackendServer>)
    requires forall s :: s in servers ==> s.activeConnections == old(s.activeConnections)
    ensures Loads(servers) == old(Loads(servers))
  {
  }

  class LoadBalancer {
    var servers: seq<BackendServer>
    var strategy: Strategy
    var roundRobinIndex: nat
    var weightedIndex: nat
    var currentWeight: int

    constructor (strategy: Strategy)
      ensures servers == [] && this.strategy == strategy
      ensures roundRobinIndex == 0 && Counters() == Cursor(0, 0)
    {
      servers, this.strategy, roundRobinIndex, weightedIndex, currentWeight := [], strategy, 0, 0, 0;
    }

    function Counters(): Cursor
      reads this
    {
      Cursor(weightedIndex, currentWeight)
    }

    method PickRoundRobin(candidates: seq<BackendServer>) returns (s: Option<BackendServer>)
      modifies this`roundRobinIndex
      ensures candidates == [] ==> s == None && roundRobinIndex == old(roundRobinIndex)
      ensures candidates != [] ==>
                && s == Some(candidates[old(roundRobinIndex) % |candidates|])
                && s == Some(candidates[Wrapped(old(roundRobinIndex), |candidates|)])
                && roundRobinIndex == old(roundRobinIndex) + 1
    {
      if candidates == [] {
        return None;
      }
      WrappedIsRemainder(roundRobinIndex, |candidates|);
      s := Some(candidates[roundRobinIndex % |candidates|]);
      roundRobinIndex := roundRobinIndex + 1;
    }

    method PickRandom(candidates: seq<BackendServer>, draw: nat) returns (s: Option<BackendServer>)
      ensures s == None <==> candidates == []
      ensures s.Some? ==> s.value in candidates
    {
      s := if candidates == [] then None else Some(candidates[draw % |candidates|]);
    }

    method PickLeastConnections(candidates: seq<BackendServer>) returns (s: Option<BackendServer>)
      ensures s == None <==> candidates == []
      ensures s.Some? ==> LeastConnected(s.value, candidates, Loads(candidates))
    {
      if candidates == [] {
        return None;
      }
      var best := 0;
      for i := 1 to |candidates|
        invariant 0 <= best < i
        invariant forall j :: 0 <= j < i ==> candidates[best].activeConnections <= candidates[j].activeConnections
        invariant forall j :: 0 <= j < best ==> candidates[best].activeConnections < candidates[j].activeConnections
      {
        if candidates[i].activeConnections < candidates[best].activeConnections {
          best := i;
        }
      }
      s := Some(candidates[best]);
    }

    /** One iteration's update of the two counters. */
    method AdvanceCounters(w: seq<int>)
      requires |w| > 0
      modifies this`weightedIndex, this`currentWeight
      ensures Counters() == Advance(w, old(Counters()))
    {
      weightedIndex := (weightedIndex + 1) % |w|;
      if weightedIndex == 0 {
        currentWeight := if currentWeight - 1 > 0 then currentWeight - 1 else 0;
        if currentWeight <= 0 {
          currentWeight := Max(w);
        }
      }
    }

    /** The loop has no bound of its own: it ends because `Rank` falls with every
        iteration that does not return, whatever the counters start from. */
    method PickWeighted(c: Candidates) returns (s: Option<BackendServer>)
      requires |c.servers| == |c.weights|
      modifies this`roundRobinIndex, this`weightedIndex, this`currentWeight
      ensures c.servers == [] ==>
                s == None && Counters() == old(Counters()) && roundRobinIndex == old(roundRobinIndex)
      ensures c.servers != [] && Sum(c.weights) == 0 ==>
                && s == Some(c.servers[Wrapped(old(roundRobinIndex), |c.servers|)])
                && roundRobinIndex == old(roundRobinIndex) + 1 && Counters() == old(Counters())
      ensures c.servers != [] && Sum(c.weights) != 0 ==>
                && Counters() == Select(c.weights, old(Counters()))
                && s == Some(c.servers[weightedIndex]) && c.weights[weightedIndex] >= currentWeight
                && roundRobinIndex == old(roundRobinIndex)
                && exists t :: t >= 1 && Counters() == AdvanceBy(c.weights, old(Counters()), t)
                               && NoneBefore(c.weights, old(Counters()), t)
    {
      ghost var start := Counters();
      if c.servers == [] {
        return None;
      }
      if Sum(c.weights) == 0 {
        s := PickRoundRobin(c.servers);
        return;
      }
      while true
        invariant roundRobinIndex == old(roundRobinIndex)
        invariant Select(c.weights, Counters()) == Select(c.weights, old(Counters()))
        decreases Rank(c.weights, Counters())
      {
        ghost var before := Counters();
        AdvanceCounters(c.weights);
        if c.weights[weightedIndex] >= currentWeight {
          ghost var t := SelectIsFirst(c.weights, start);
          return Some(c.servers[weightedIndex]);
        }
        RankDecreases(c.weights, before);
      }
    }

    /** What a selection depends on besides its own marks. */
    ghost function Now(): Setting
      reads this, servers
    {
      var c := Healthy(servers);
      HealthyMembers(servers);
      assert forall i :: 0 <= i < |c.servers| ==> c.servers[i] in c.servers;
      Setting(strategy, c, Loads(c.servers))
    }

    ghost function Place(): Marks
      reads this
    {
      Marks(Counters(), roundRobinIndex)
    }

    /** `draw` stands for the random number generator. */
    method SelectServer(draw: nat) returns (s: Option<BackendServer>)
      modifies this`roundRobinIndex, this`weightedIndex, this`currentWeight
      ensures s.Some? ==> s.value in servers && s.value.isHealthy
      ensures Selected(old(Now()), old(Place()), s, Place())
    {
      HealthyMembers(servers);
      s := Pick(Healthy(servers), draw);
    }

    /** A selection among the candidates, by the strategy in force. */
    method Pick(c: Candidates, draw: nat) returns (s: Option<BackendServer>)
      requires |c.servers| == |c.weights|
      modifies this`roundRobinIndex, this`weightedIndex, this`currentWeight
      ensures Selected(Setting(strategy, c, old(Loads(c.servers))), old(Place()), s, Place())
    {
      match strategy
      case RoundRobin => s := PickRoundRobin(c.servers);
      case Random => s := PickRandom(c.servers, draw);
      case LeastConnections => s := PickLeastConnections(c.servers);
      case Weighted => s := PickWeighted(c);
    }

    /** One selection, counted on the server it chose. */
    method SelectAndCount(draw: nat) returns (s: Option<BackendServer>)
      modifies this`roundRobinIndex, this`weightedIndex, this`currentWeight, servers`totalRequests
      ensures s.Some? ==> s.value in servers && s.value.isHealthy
      ensures Selected(old(Now()), old(Place()), s, Place())
      ensures forall t :: t in servers ==> t.totalRequests == old(t.totalRequests) + if s == Some(t) then 1 else 0
    {
      s := SelectServer(draw);
      if s.Some? {
        s.value.totalRequests := s.value.totalRequests + 1;
      }
    }

    /** The batch endpoint: `count` selections, each counted on the server it
        chose; None is the rejection of a count outside 1..100. `draws` stands
        for the random number generator. */
    method SelectBatch(count: int, draws: nat -> nat) returns (picks: Option<seq<BackendServer>>)
      modifies this`roundRobinIndex, this`weightedIndex, this`currentWeight, servers`totalRequests
      ensures picks == None <==> !(1 <= count <= 100)
      ensures picks == None ==> Place() == old(Place())
      ensures var total := if picks.Some? then picks.value else [];
              forall s :: s in servers ==> s.totalRequests == old(s.totalRequests) + multiset(total)[s]
      ensures picks.Some? ==> SelectedAll(old(Now()), old(Place()), count, picks.value, Place())
    {
      if count < 1 || count > 100 {
        return None;
      }
      var chosen := SelectMany(count, draws);
      picks := Some(chosen);
    }

    /** The loop of the batch. */
    method SelectMany(count: nat, draws: nat -> nat) returns (chosen: seq<BackendServer>)
      modifies this`roundRobinIndex, this`weightedIndex, this`currentWeight, servers`totalRequests
      ensures forall s :: s in servers ==> s.totalRequests == old(s.totalRequests) + multiset(chosen)[s]
      ensures SelectedAll(old(Now()), old(Place()), count, chosen, Place())
    {
      ghost var now, start := Now(), Place();
      NoneSelected(now, start);
      chosen := [];
      for n := 0 to count
        invariant Now() == now && SelectedAll(now, start, n, chosen, Place())
        invariant forall s :: s in servers ==> s.totalRequests == old(s.totalRequests) + multiset(chosen)[s]
      {
        chosen := SelectInto(draws(n), chosen, start, n);
      }
    }

    /** One iteration of the batch. */
    method SelectInto(draw: nat, chosen: seq<BackendServer>, ghost start: Marks, ghost n: nat)
      returns (longer: seq<BackendServer>)
      requires SelectedAll(Now(), start, n, chosen, Place())
      modifies this`roundRobinIndex, this`weightedIndex, this`currentWeight, servers`totalRequests
      ensures Now() == old(Now())
      ensures forall s :: s in servers ==>
                s.totalRequests - multiset(longer)[s] == old(s.totalRequests) - multiset(chosen)[s]
      ensures SelectedAll(Now(), start, n + 1, longer, Place())
    {
      ghost var now, before := Now(), Place();
      var s := SelectAndCount(draw);
      SettingUnchanged(this);
      OneMoreSelected(now, start, n, chosen, before, s, Place());
      longer := if s.Some? then chosen + [s.value] else chosen;
    }

    /** The weight endpoint: rejects a weight outside 1..10 and an unknown id. */
    method SetWeight(id: string, weight: int) returns (ok: bool)
      modifies servers`weight
      ensures ok <==> 1 <= weight <= 10 && exists i :: 0 <= i < |servers| && servers[i].id == id
      ensures !ok ==> forall s :: s in servers ==> s.weight == old(s.weight)
      ensures forall s :: s in servers && s.id != id ==> s.weight == old(s.weight)
      ensures ok ==> exists i :: 0 <= i < |servers| && servers[i].id == id && servers[i].weight == weight
                                 && (forall j :: 0 <= j < i ==> servers[j].id != id)
                                 && (forall s :: s in servers && s != servers[i] ==> s.weight == old(s.weight))
      ensures old(PositiveWeights(servers)) ==> PositiveWeights(servers)
    {
      if weight < 1 || weight > 10 {
        return false;
      }
      for i := 0 to |servers|
        invariant forall j :: 0 <= j < i ==> servers[j].id != id
        invariant forall s :: s in servers ==> s.weight == old(s.weight)
      {
        if servers[i].id == id {
          servers[i].weight := weight;
          return true;
        }
      }
      ok := false;
    }

    method Reset()
      modifies this`roundRobinIndex, this`weightedIndex, this`currentWeight
      modifies servers`totalRequests, servers`totalFailures, servers`activeConnections
      ensures roundRobinIndex == 0 && Counters() == Cursor(0, 0)
      ensures forall s :: s in servers ==> s.totalRequests == s.totalFailures == s.activeConnections == 0
    {
      for i := 0 to |servers|
        invariant forall j :: 0 <= j < i ==>
                    servers[j].totalRequests == servers[j].totalFailures == servers[j].activeConnections == 0
      {
        servers[i].totalRequests, servers[i].totalFailures, servers[i].activeConnections := 0, 0, 0;
      }
      roundRobinIndex, weightedIndex, currentWeight := 0, 0, 0;
    }
  }

  ghost predicate PositiveWeights(servers: seq<BackendServer>)
    reads servers`weight
  {
    forall s :: s in servers ==> s.weight >= 1
  }

  /** With positive weights, which is all the weight endpoint allows, the healthy
      servers meet the premises of the fairness theorems whenever there are any. */
  lemma PositiveWeightsAreUsable(servers: seq<BackendServer>)
    requires PositiveWeights(servers) && Healthy(servers).servers != []
    ensures Usable(Healthy(servers).weights) && Sum(Healthy(servers).weights) >= |Healthy(servers).weights|
  {
    var c := Healthy(servers);
    HealthyMembers(servers);
    assert forall i :: 0 <= i < |c.weights| ==> c.weights[i] >= 1;
    SumOfPositive(c.weights);
    assert c.weights[0] <= Max(c.weights);
  }

  lemma {:induction false} SumOfPositive(w: seq<int>)
    requires forall i :: 0 <= i < |w| ==> w[i] >= 1
    ensures Sum(w) >= |w|
  {
    if w != [] {
      SumOfPositive(w[1..]);
    }
  }

  /** `picks` are the candidates at the given indices. */
  ghost predicate Follows(picks: seq<BackendServer>, candidates: seq<BackendServer>, indices: seq<nat>) {
    && |picks| == |indices|
    && forall j :: 0 <= j < |picks| ==> indices[j] < |candidates| && picks[j] == candidates[indices[j]]
  }

  lemma {:induction false} SelectionsLength(w: seq<int>, c: Cursor, k: nat)
    requires |w| > 0
    ensures |Selections(w, c, k)| == k
    decreases k
  {
    if k > 0 {
      SelectionsLength(w, Select(w, c), k - 1);
    }
  }

  lemma {:induction false} AfterSelectionsStep(w: seq<int>, c: Cursor, k: nat)
    requires |w| > 0
    ensures AfterSelections(w, c, k + 1) == Select(w, AfterSelections(w, c, k))
    decreases k
  {
    if k > 0 {
      AfterSelectionsStep(w, Select(w, c), k - 1);
    }
  }

  lemma SelectionsExtend(w: seq<int>, c: Cursor, k: nat)
    requires |w| > 0
    ensures |Selections(w, c, k)| == k
    ensures AfterSelections(w, c, k + 1) == Select(w, AfterSelections(w, c, k))
    ensures Selections(w, c, k + 1) == Selections(w, c, k) + [AfterSelections(w, c, k + 1).index]
  {
    SelectionsLength(w, c, k);
    AfterSelectionsStep(w, c, k);
    SelectionsSplit(w, c, k, 1);
    var last := AfterSelections(w, c, k);
    assert Selections(w, last, 1) == [Select(w, last).index] + Selections(w, Select(w, last), 0);
  }

  lemma FollowsExtend(chosen: seq<BackendServer>, healthy: seq<BackendServer>, w: seq<int>, start: Cursor, n: nat)
    requires |w| == |healthy| > 0
    requires Follows(chosen, healthy, Selections(w, start, n))
    ensures AfterSelections(w, start, n + 1) == Select(w, AfterSelections(w, start, n))
    ensures var next := AfterSelections(w, start, n + 1).index;
            next < |healthy| && Follows(chosen + [healthy[next]], healthy, Selections(w, start, n + 1))
  {
    SelectionsExtend(w, start, n);
  }

  lemma TurnFollows(chosen: seq<BackendServer>, healthy: seq<BackendServer>, turn: nat, n: nat)
    requires healthy != [] && Follows(chosen, healthy, Turns(|healthy|, turn, n))
    ensures Follows(chosen + [healthy[Wrapped(turn + n, |healthy|)]], healthy, Turns(|healthy|, turn, n + 1))
  {
    TurnsExtend(|healthy|, turn, n);
  }

  /** With distinct candidates, a server is picked as often as its index is. */
  lemma {:induction false} PicksCountIndices(
      picks: seq<BackendServer>, candidates: seq<BackendServer>, indices: seq<nat>, i: nat)
    requires Follows(picks, candidates, indices)
    requires forall j, k :: 0 <= j < k < |candidates| ==> candidates[j] != candidates[k]
    requires i < |candidates|
    ensures multiset(picks)[candidates[i]] == Count(indices, i)
  {
    if picks != [] {
      PicksCountIndices(picks[1..], candidates, indices[1..], i);
      assert picks == [picks[0]] + picks[1..];
    }
  }

  /** A batch made right after a reset, of n - 1 + k * Sum(weights) selections over
      distinct servers, picks server `i` exactly k * weight times, plus once for
      every server but the first. */
  lemma BatchAfterResetIsFair(picks: seq<BackendServer>, c: Candidates, k: nat, i: nat)
    requires |c.servers| == |c.weights| && Usable(c.weights) && i < |c.servers|
    requires forall j, m :: 0 <= j < m < |c.servers| ==> c.servers[j] != c.servers[m]
    requires k * Sum(c.weights) >= 0
    requires Follows(picks, c.servers, Selections(c.weights, Cursor(0, 0), |c.weights| - 1 + k * Sum(c.weights)))
    ensures multiset(picks)[c.servers[i]] == k * c.weights[i] + if i > 0 then 1 else 0
  {
    FairFromReset(c.weights, k, i);
    PicksCountIndices(picks, c.servers, Selections(c.weights, Cursor(0, 0), |c.weights| - 1 + k * Sum(c.weights)), i);
  }
}
