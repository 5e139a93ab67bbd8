/** Copy, mutate, commit: the update permits of the module-graph containers, as
    interleaved steps of any number of tasks. `G` is a graph, `U` one mutation of
    it, and `apply` what a mutation does. */
module GraphContainers {
  import opened Basics

  type Task = nat

  /** `copies` are the private graphs of the permits that tasks hold; `copied` says
      whether the holder of the queue has taken its copy. */
  datatype State<G> = State(graph: G, holder: Option<Task>, copied: bool, waiting: set<Task>, copies: map<Task, G>)

  /** Acquiring a permit is waiting for the queue, then copying the graph;
      committing is replacing the graph, then releasing the queue. Other tasks
      may run between any two of these steps. */
  datatype Action<U> =
    | Wait(task: Task)
    | CancelWait(task: Task)
    | Grant(task: Task)
    | Copy(task: Task)
    | Mutate(task: Task, update: U)
    | Publish(task: Task)
    | Release(task: Task)
    | Abandon(task: Task)
    | Read(task: Task)

  /** What a task can do: the queue grants its permit to one waiting task at a time;
      everything else only needs what the task itself holds. */
  predicate Enabled<G, U>(s: State<G>, a: Action<U>) {
    match a
    case Wait(t) => t !in s.waiting && s.holder != Some(t)
    case CancelWait(t) => t in s.waiting
    case Grant(t) => t in s.waiting && s.holder.None?
    case Copy(t) => s.holder == Some(t) && !s.copied
    case Mutate(t, _) => t in s.copies
    case Publish(t) => t in s.copies
    case Release(t) => s.holder == Some(t) && t !in s.copies
    case Abandon(t) => t in s.copies
    case Read(_) => true
  }

  function Next<G, U>(apply: (G, U) -> G, s: State<G>, a: Action<U>): State<G>
    requires Enabled(s, a)
  {
    match a
    case Wait(t) => s.(waiting := s.waiting + {t})
    case CancelWait(t) => s.(waiting := s.waiting - {t})
    case Grant(t) => s.(waiting := s.waiting - {t}, holder := Some(t))
    case Copy(t) => s.(copied := true, copies := s.copies[t := s.graph])
    case Mutate(t, u) => s.(copies := s.copies[t := apply(s.copies[t], u)])
    case Publish(t) => s.(graph := s.copies[t], copies := s.copies - {t})
    case Release(_) => s.(holder := None, copied := false)
    case Abandon(t) => s.(copies := s.copies - {t}, holder := None, copied := false)
    case Read(_) => s
  }

  /** The container, whose methods are these steps. */
  class GraphContainer<G, U> {
    const apply: (G, U) -> G
    var graph: G
    var holder: Option<Task>
    var copied: bool
    var waiting: set<Task>
    var copies: map<Task, G>

    function Value(): State<G>
      reads this
    {
      State(graph, holder, copied, waiting, copies)
    }

    constructor (apply: (G, U) -> G, graph: G)
      ensures Value() == New(graph) && this.apply == apply
    {
      this.apply, this.graph := apply, graph;
      holder, copied, waiting, copies := None, false, {}, map[];
    }

    method EnterQueue(t: Task)
      requires Enabled(Value(), Action<U>.Wait(t))
      modifies this
      ensures Value() == Next(apply, old(Value()), Wait(t))
    {
      waiting := waiting + {t};
    }

    method AcquireQueue(t: Task)
      requires Enabled(Value(), Action<U>.Grant(t))
      modifies this
      ensures Value() == Next(apply, old(Value()), Grant(t))
    {
      waiting := waiting - {t};
      holder := Some(t);
    }

    method CopyGraph(t: Task)
      requires Enabled(Value(), Action<U>.Copy(t))
      modifies this
      ensures Value() == Next(apply, old(Value()), Copy(t))
    {
      copied, copies := true, copies[t := graph];
    }

    method MutateCopy(t: Task, u: U)
      requires Enabled(Value(), Mutate(t, u))
      modifies this
      ensures Value() == Next(apply, old(Value()), Mutate(t, u))
    {
      copies := copies[t := apply(copies[t], u)];
    }

    method CommitCopy(t: Task)
      requires Enabled(Value(), Action<U>.Publish(t))
      modifies this
      ensures Value() == Next(apply, old(Value()), Publish(t))
    {
      graph := copies[t];
      copies := copies - {t};
    }

    method ReleaseQueue(t: Task)
      requires Enabled(Value(), Action<U>.Release(t))
      modifies this
      ensures Value() == Next(apply, old(Value()), Release(t))
    {
      holder, copied := None, false;
    }

    /** Dropping the permit without committing. */
    method DropPermit(t: Task)
      requires Enabled(Value(), Action<U>.Abandon(t))
      modifies this
      ensures Value() == Next(apply, old(Value()), Abandon(t))
    {
      copies := copies - {t};
      holder, copied := None, false;
    }

    method Snapshot() returns (g: G)
      ensures g == Value().graph
    {
      g := graph;
    }
  }

  // ---------------------------------------------------------------------------
  // Runs, and what their traces say was committed
  // ---------------------------------------------------------------------------

  function New<G>(graph: G): State<G> {
    State(graph, None, false, {}, map[])
  }

  predicate IsRun<G, U>(apply: (G, U) -> G, graph: G, acts: seq<Action<U>>)
    decreases |acts|, 0
  {
    acts != [] ==>
      IsRun(apply, graph, acts[..|acts| - 1]) && Enabled(Run(apply, graph, acts[..|acts| - 1]), acts[|acts| - 1])
  }

  function Run<G, U>(apply: (G, U) -> G, graph: G, acts: seq<Action<U>>): State<G>
    requires IsRun(apply, graph, acts)
    decreases |acts|, 1
  {
    if acts == [] then New(graph) else Next(apply, Run(apply, graph, acts[..|acts| - 1]), acts[|acts| - 1])
  }

  /** The mutations a task has made since it last copied the graph. */
  function Uncommitted<U>(acts: seq<Action<U>>, t: Task): seq<U> {
    if acts == [] then [] else
    var before, a := Uncommitted(acts[..|acts| - 1], t), acts[|acts| - 1];
    if a.task != t then before
    else if a.Mutate? then before + [a.update]
    else if a.Copy? || a.Publish? || a.Abandon? then []
    else before
  }

  /** The mutations of committed permits, permit after permit in commit order. */
  function Committed<U>(acts: seq<Action<U>>): seq<U> {
    if acts == [] then [] else
    var before, a := acts[..|acts| - 1], acts[|acts| - 1];
    Committed(before) + if a.Publish? then Uncommitted(before, a.task) else []
  }

  function ApplyAll<G, U>(apply: (G, U) -> G, graph: G, us: seq<U>): G {
    if us == [] then graph else apply(ApplyAll(apply, graph, us[..|us| - 1]), us[|us| - 1])
  }

  lemma {:induction false} ApplyAllConcat<G, U>(apply: (G, U) -> G, graph: G, a: seq<U>, b: seq<U>)
    ensures ApplyAll(apply, graph, a + b) == ApplyAll(apply, ApplyAll(apply, graph, a), b)
    decreases |b|
  {
    if b == [] {
      assert a + b == a;
    } else {
      assert (a + b)[..|a + b| - 1] == a + b[..|b| - 1];
      ApplyAllConcat(apply, graph, a, b[..|b| - 1]);
    }
  }

  ghost predicate Serialized<G, U>(apply: (G, U) -> G, graph: G, acts: seq<Action<U>>, s: State<G>) {
    && s.graph == ApplyAll(apply, graph, Committed(acts))
    && (forall t :: t in s.copies ==>
          s.holder == Some(t) && s.copied && s.copies[t] == ApplyAll(apply, s.graph, Uncommitted(acts, t)))
    && (s.holder.None? ==> !s.copied)
  }

  lemma StepSerialized<G, U>(apply: (G, U) -> G, graph: G, acts: seq<Action<U>>, s: State<G>, a: Action<U>)
    requires Serialized(apply, graph, acts, s) && Enabled(s, a)
    ensures Serialized(apply, graph, acts + [a], Next(apply, s, a))
  {
    var acts', s' := acts + [a], Next(apply, s, a);
    assert acts'[..|acts|] == acts;
    match a
    case Publish(t) =>
      ApplyAllConcat(apply, graph, Committed(acts), Uncommitted(acts, t));
    case Mutate(t, u) =>
      var us := Uncommitted(acts, t);
      assert (us + [u])[..|us|] == us;
      assert Committed(acts') == Committed(acts);
    case _ =>
      assert Committed(acts') == Committed(acts);
  }

  /** In every interleaving the container's graph is the initial one with the
      committed mutations applied in commit order, and at most the queue's holder
      has a private copy, which is that graph with the holder's own mutations. */
  lemma {:induction false} UpdatesAreSerialized<G, U>(apply: (G, U) -> G, graph: G, acts: seq<Action<U>>)
    requires IsRun(apply, graph, acts)
    ensures Serialized(apply, graph, acts, Run(apply, graph, acts))
  {
    if acts != [] {
      var before := acts[..|acts| - 1];
      UpdatesAreSerialized(apply, graph, before);
      StepSerialized(apply, graph, before, Run(apply, graph, before), acts[|acts| - 1]);
      assert before + [acts[|acts| - 1]] == acts;
    }
  }

  lemma {:induction false} RunPrefix<G, U>(apply: (G, U) -> G, graph: G, acts: seq<Action<U>>, n: nat)
    requires IsRun(apply, graph, acts) && n <= |acts|
    ensures IsRun(apply, graph, acts[..n]) && Committed(acts[..n]) <= Committed(acts)
    decreases |acts|
  {
    if n < |acts| {
      var before := acts[..|acts| - 1];
      RunPrefix(apply, graph, before, n);
      assert before[..n] == acts[..n];
    } else {
      assert acts[..n] == acts;
    }
  }

  /** A snapshot read at any moment of a run is the initial graph with a prefix of
      the finally committed mutations applied, and later snapshots never go back. */
  lemma SnapshotsAreCommittedPrefixes<G, U>(apply: (G, U) -> G, graph: G, acts: seq<Action<U>>, n: nat, m: nat)
    requires IsRun(apply, graph, acts) && n <= m <= |acts|
    ensures IsRun(apply, graph, acts[..n]) && IsRun(apply, graph, acts[..m])
    ensures Run(apply, graph, acts[..n]).graph == ApplyAll(apply, graph, Committed(acts[..n]))
    ensures Run(apply, graph, acts[..m]).graph == ApplyAll(apply, graph, Committed(acts[..m]))
    ensures Committed(acts[..n]) <= Committed(acts[..m]) <= Committed(acts)
  {
    SnapshotIsCommitted(apply, graph, acts, n);
    SnapshotIsCommitted(apply, graph, acts, m);
    RunPrefix(apply, graph, acts[..m], n);
    assert acts[..m][..n] == acts[..n];
  }

  lemma SnapshotIsCommitted<G, U>(apply: (G, U) -> G, graph: G, acts: seq<Action<U>>, n: nat)
    requires IsRun(apply, graph, acts) && n <= |acts|
    ensures IsRun(apply, graph, acts[..n]) && Committed(acts[..n]) <= Committed(acts)
    ensures Run(apply, graph, acts[..n]).graph == ApplyAll(apply, graph, Committed(acts[..n]))
  {
    RunPrefix(apply, graph, acts, n);
    UpdatesAreSerialized(apply, graph, acts[..n]);
  }

  // ---------------------------------------------------------------------------
  // A permit that is dropped might as well never have been asked for
  // ---------------------------------------------------------------------------

  /** What the readers of a run get to see, in order. */
  function Observations<G, U>(apply: (G, U) -> G, graph: G, acts: seq<Action<U>>): seq<(Task, G)>
    requires IsRun(apply, graph, acts)
  {
    if acts == [] then [] else
    var before, a := acts[..|acts| - 1], acts[|acts| - 1];
    Observations(apply, graph, before) + if a.Read? then [(a.task, Run(apply, graph, before).graph)] else []
  }

  /** One more step of a run. */
  lemma RunSnoc<G, U>(apply: (G, U) -> G, graph: G, acts: seq<Action<U>>, a: Action<U>)
    ensures IsRun(apply, graph, acts + [a]) <==>
            IsRun(apply, graph, acts) && Enabled(Run(apply, graph, acts), a)
    ensures IsRun(apply, graph, acts + [a]) ==>
              && Run(apply, graph, acts + [a]) == Next(apply, Run(apply, graph, acts), a)
              && Observations(apply, graph, acts + [a]) ==
                 Observations(apply, graph, acts) + if a.Read? then [(a.task, Run(apply, graph, acts).graph)] else []
  {
    assert (acts + [a])[..|acts|] == acts;
  }

  /** Two runs that have shown their readers the same, the second now in state `s'`. */
  ghost predicate Alike<G, U>(apply: (G, U) -> G, graph: G, acts: seq<Action<U>>, acts': seq<Action<U>>, s': State<G>) {
    && IsRun(apply, graph, acts) && IsRun(apply, graph, acts')
    && Run(apply, graph, acts') == s'
    && Observations(apply, graph, acts') == Observations(apply, graph, acts)
  }

  /** No step by which `t` enters or leaves the queue. */
  predicate Queued<U>(acts: seq<Action<U>>, t: Task) {
    forall i :: 0 <= i < |acts| && acts[i].task == t ==> !acts[i].Wait? && !acts[i].CancelWait? && !acts[i].Grant?
  }

  /** No step by which `t` gives its permit back. */
  predicate Held<U>(acts: seq<Action<U>>, t: Task) {
    forall i :: 0 <= i < |acts| && acts[i].task == t ==> !acts[i].Publish? && !acts[i].Release? && !acts[i].Abandon?
  }

  /** The steps without the copying and mutating of `t`. */
  function WithoutEdits<U>(acts: seq<Action<U>>, t: Task): seq<Action<U>> {
    if acts == [] then [] else
    var a := acts[|acts| - 1];
    WithoutEdits(acts[..|acts| - 1], t) + if a.task == t && (a.Copy? || a.Mutate?) then [] else [a]
  }

  function NotWaiting<G>(s: State<G>, t: Task): State<G> {
    s.(waiting := s.waiting - {t})
  }

  function NotHolding<G>(s: State<G>, t: Task): State<G> {
    s.(holder := None, copied := false, copies := s.copies - {t})
  }

  /** While `t` waits, the run without its wait differs only in that. */
  lemma {:induction false} ErasedWait<G, U>(apply: (G, U) -> G, graph: G, a: seq<Action<U>>, t: Task, b: seq<Action<U>>)
    requires IsRun(apply, graph, a + [Wait(t)] + b) && Queued(b, t)
    ensures var s := Run(apply, graph, a + [Wait(t)] + b);
            t in s.waiting && s.holder != Some(t) && Alike(apply, graph, a + [Wait(t)] + b, a + b, NotWaiting(s, t))
    decreases |b|
  {
    if b == [] {
      assert a + [Wait(t)] + b == a + [Wait(t)] && a + b == a;
      RunSnoc(apply, graph, a, Wait(t));
    } else {
      var b', x := b[..|b| - 1], b[|b| - 1];
      assert a + [Wait(t)] + b == (a + [Wait(t)] + b') + [x] && a + b == (a + b') + [x];
      RunSnoc(apply, graph, a + [Wait(t)] + b', x);
      ErasedWait(apply, graph, a, t, b');
      UpdatesAreSerialized(apply, graph, a + [Wait(t)] + b');
      RunSnoc(apply, graph, a + b', x);
    }
  }

  /** While `t` holds its permit, the run without wait, grant, copy and mutations
      differs only in that permit. */
  lemma {:induction false} ErasedPermit<G, U>(
      apply: (G, U) -> G, graph: G, a: seq<Action<U>>, t: Task, b: seq<Action<U>>, c: seq<Action<U>>)
    requires IsRun(apply, graph, a + [Wait(t)] + b + [Grant(t)] + c) && Queued(b, t) && Held(c, t)
    ensures var acts := a + [Wait(t)] + b + [Grant(t)] + c;
            var s := Run(apply, graph, acts);
            && s.holder == Some(t) && t !in s.waiting
            && Alike(apply, graph, acts, a + b + WithoutEdits(c, t), NotHolding(s, t))
    decreases |c|
  {
    var start := a + [Wait(t)] + b;
    if c == [] {
      assert start + [Grant(t)] + c == start + [Grant(t)] && a + b + [] == a + b;
      RunSnoc(apply, graph, start, Grant(t));
      ErasedWait(apply, graph, a, t, b);
      UpdatesAreSerialized(apply, graph, start);
      assert Run(apply, graph, start).copies == map[];
    } else {
      var c', x := c[..|c| - 1], c[|c| - 1];
      assert start + [Grant(t)] + c == (start + [Grant(t)] + c') + [x];
      RunSnoc(apply, graph, start + [Grant(t)] + c', x);
      ErasedPermit(apply, graph, a, t, b, c');
      UpdatesAreSerialized(apply, graph, start + [Grant(t)] + c');
      var kept := a + b + WithoutEdits(c', t);
      if x.task == t && (x.Copy? || x.Mutate?) {
        assert a + b + WithoutEdits(c, t) == kept;
      } else {
        assert a + b + WithoutEdits(c, t) == kept + [x];
        RunSnoc(apply, graph, kept, x);
      }
    }
  }

  /** Runs that have come to the same state go on alike. */
  lemma {:induction false} SameContinuation<G, U>(
      apply: (G, U) -> G, graph: G, x: seq<Action<U>>, y: seq<Action<U>>, more: seq<Action<U>>)
    requires IsRun(apply, graph, x + more) && IsRun(apply, graph, x)
    requires Alike(apply, graph, x, y, Run(apply, graph, x))
    ensures Alike(apply, graph, x + more, y + more, Run(apply, graph, x + more))
    decreases |more|
  {
    if more == [] {
      assert x + more == x && y + more == y;
    } else {
      var more', z := more[..|more| - 1], more[|more| - 1];
      assert x + more == (x + more') + [z] && y + more == (y + more') + [z];
      RunSnoc(apply, graph, x + more', z);
      SameContinuation(apply, graph, x, y, more');
      RunSnoc(apply, graph, y + more', z);
    }
  }

  /** The wait a waiting task is in. */
  lemma {:induction false} FindWait<G, U>(apply: (G, U) -> G, graph: G, acts: seq<Action<U>>, t: Task)
    returns (a: seq<Action<U>>, b: seq<Action<U>>)
    requires IsRun(apply, graph, acts) && t in Run(apply, graph, acts).waiting
    ensures acts == a + [Wait(t)] + b && Queued(b, t)
    decreases |acts|
  {
    var before, x := acts[..|acts| - 1], acts[|acts| - 1];
    if x == Wait(t) {
      a, b := before, [];
    } else {
      a, b := FindWait(apply, graph, before, t);
      b := b + [x];
    }
  }

  /** The wait and the grant of the permit a task has a copy from, or is yet to
      copy for. */
  lemma {:induction false} FindPermit<G, U>(apply: (G, U) -> G, graph: G, acts: seq<Action<U>>, t: Task)
    returns (a: seq<Action<U>>, b: seq<Action<U>>, c: seq<Action<U>>)
    requires IsRun(apply, graph, acts)
    requires var s := Run(apply, graph, acts); s.holder == Some(t) && (t in s.copies || !s.copied)
    ensures acts == a + [Wait(t)] + b + [Grant(t)] + c && Queued(b, t) && Held(c, t)
    decreases |acts|
  {
    var before, x := acts[..|acts| - 1], acts[|acts| - 1];
    UpdatesAreSerialized(apply, graph, before);
    if x == Grant(t) {
      a, b := FindWait(apply, graph, before, t);
      c := [];
    } else {
      a, b, c := FindPermit(apply, graph, before, t);
      c := c + [x];
    }
  }

  /** Dropping a permit leaves no trace: for every drop in every run, the run without
      the wait, grant, copy and mutations of that permit and without the drop is a
      run too, comes to the same state, and has shown its readers the same, whatever
      the tasks did in between and afterwards. */
  lemma AbandonedLeavesNoTrace<G, U>(apply: (G, U) -> G, graph: G, acts: seq<Action<U>>, j: nat)
    returns (a: seq<Action<U>>, b: seq<Action<U>>, c: seq<Action<U>>)
    requires IsRun(apply, graph, acts) && j < |acts| && acts[j].Abandon?
    ensures var t := acts[j].task;
            && acts == a + [Wait(t)] + b + [Grant(t)] + c + [Abandon(t)] + acts[j + 1..]
            && Queued(b, t) && Held(c, t)
            && Alike(apply, graph, acts, a + b + WithoutEdits(c, t) + acts[j + 1..], Run(apply, graph, acts))
  {
    var t, more := acts[j].task, acts[j + 1..];
    var before := acts[..j];
    RunPrefix(apply, graph, acts, j + 1);
    assert acts[..j + 1] == before + [Abandon(t)];
    RunSnoc(apply, graph, before, Abandon(t));
    UpdatesAreSerialized(apply, graph, before);
    a, b, c := FindPermit(apply, graph, before, t);
    ErasedPermit(apply, graph, a, t, b, c);
    assert acts == before + [Abandon(t)] + more;
    SameContinuation(apply, graph, before + [Abandon(t)], a + b + WithoutEdits(c, t), more);
  }

  /** The wait has to go with the rest: a task may queue again after a drop, but not
      while it still waits. */
  lemma WaitMustGoToo(graph: int)
    ensures var apply := (g: int, u: int) => u;
            var acts: seq<Action<int>> := [Wait(0), Grant(0), Copy(0), Abandon(0), Wait(0)];
            IsRun(apply, graph, acts) && !IsRun(apply, graph, [acts[0], acts[4]])
  {
    var apply := (g: int, u: int) => u;
    var none: seq<Action<int>> := [];
    var one := none + [Wait(0)];
    RunSnoc(apply, graph, none, Wait(0));
    RunSnoc(apply, graph, one, Wait(0));
    RunSnoc(apply, graph, one, Grant(0));
    RunSnoc(apply, graph, one + [Grant(0)], Copy(0));
    RunSnoc(apply, graph, one + [Grant(0)] + [Copy(0)], Abandon(0));
    RunSnoc(apply, graph, one + [Grant(0)] + [Copy(0)] + [Abandon(0)], Wait(0));
    assert one + [Grant(0)] + [Copy(0)] + [Abandon(0)] + [Wait(0)] == [Wait(0), Grant(0), Copy(0), Abandon(0), Wait(0)];
    assert one + [Wait(0)] == [Wait(0), Wait(0)];
  }
}
