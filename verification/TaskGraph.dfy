/**
 The task dependency graph of projects: the depth-first cycle check that guards a
 dependency edit, and the invariant that every run of creates, edits and project
 deletions keeps (src/routes/projects.ts).
 */
module TaskGraph {
  import opened Optional

  type TaskId = nat
  type ProjectId = nat

  /** One row of the dependency table: `task` waits for `dependsOn`. */
  datatype Edge = Edge(task: TaskId, dependsOn: TaskId)

  // ---------------------------------------------------------------------------
  // Paths: the reference meaning of "reaches" and "acyclic"

  ghost predicate IsPath(edges: set<Edge>, p: seq<TaskId>) {
    && |p| >= 1
    && forall i, j :: 0 <= i && j == i + 1 && j < |p| ==> Edge(p[i], p[j]) in edges
  }

  ghost predicate Connects(edges: set<Edge>, a: TaskId, b: TaskId, p: seq<TaskId>) {
    IsPath(edges, p) && p[0] == a && p[|p| - 1] == b
  }

  /** `b` can be reached from `a` along zero or more dependency rows. */
  ghost predicate Reaches(edges: set<Edge>, a: TaskId, b: TaskId) {
    exists p :: Connects(edges, a, b, p)
  }

  /** No task waits for itself, directly or through others. */
  ghost predicate Acyclic(edges: set<Edge>) {
    forall p :: IsPath(edges, p) && |p| >= 2 ==> p[0] != p[|p| - 1]
  }

  ghost predicate ClosedIn(edges: set<Edge>, v: set<TaskId>) {
    forall e :: e in edges && e.task in v ==> e.dependsOn in v
  }

  lemma {:induction false} ClosedSetKeepsPath(edges: set<Edge>, v: set<TaskId>, p: seq<TaskId>)
    requires IsPath(edges, p) && p[0] in v && ClosedIn(edges, v)
    ensures p[|p| - 1] in v
  {
    if |p| > 1 {
      assert Edge(p[0], p[1]) in edges;
      ClosedSetKeepsPath(edges, v, p[1..]);
    }
  }

  /** A set closed under the edges is a barrier: nothing outside it can be reached. */
  lemma ClosedSetBlocks(edges: set<Edge>, v: set<TaskId>, a: TaskId, b: TaskId)
    requires a in v && b !in v && ClosedIn(edges, v)
    ensures !Reaches(edges, a, b)
  {
    forall p | Connects(edges, a, b, p)
      ensures false
    {
      ClosedSetKeepsPath(edges, v, p);
    }
  }

  lemma PrependEdge(edges: set<Edge>, a: TaskId, b: TaskId, c: TaskId)
    requires Edge(a, b) in edges && Reaches(edges, b, c)
    ensures Reaches(edges, a, c)
  {
    var p :| Connects(edges, b, c, p);
    assert Connects(edges, a, c, [a] + p);
  }

  // ---------------------------------------------------------------------------
  // The recursive search with its shared visited set

  ghost function EdgesOf(graph: map<TaskId, seq<TaskId>>): set<Edge> {
    set a, b | a in graph && b in graph[a] :: Edge(a, b)
  }

  ghost predicate Within(graph: map<TaskId, seq<TaskId>>, nodes: set<TaskId>) {
    forall a :: a in graph ==> forall b :: b in graph[a] ==> b in nodes
  }

  class CycleSearch {
    const target: TaskId
    const graph: map<TaskId, seq<TaskId>>
    var visited: set<TaskId>

    constructor (target: TaskId, graph: map<TaskId, seq<TaskId>>)
      ensures this.target == target && this.graph == graph && visited == {}
    {
      this.target, this.graph, this.visited := target, graph, {};
    }

    /** Every visited node that is not still in progress has all its successors visited. */
    ghost predicate Explored(open: set<TaskId>)
      reads this
    {
      && target !in visited
      && forall a :: a in visited && a !in open && a in graph ==>
           forall b :: b in graph[a] ==> b in visited
    }

    /** `open` is the set of nodes on the recursion stack; `nodes` bounds the search. */
    method ReachesTask(node: TaskId, ghost open: set<TaskId>, ghost nodes: set<TaskId>) returns (found: bool)
      requires node in nodes && Within(graph, nodes) && visited <= nodes
      requires Explored(open)
      modifies this`visited
      ensures old(visited) <= visited <= nodes
      ensures found ==> Reaches(EdgesOf(graph), node, target)
      ensures !found ==> node in visited && Explored(open)
      decreases nodes - visited
    {
      if node == target {
        assert Connects(EdgesOf(graph), node, target, [node]);
        return true;
      }
      if node in visited {
        return false;
      }
      visited := visited + {node};
      var next := if node in graph then graph[node] else [];
      var i := 0;
      while i < |next|
        invariant 0 <= i <= |next|
        invariant old(visited) + {node} <= visited <= nodes
        invariant Explored(open + {node})
        invariant forall j :: 0 <= j < i ==> next[j] in visited
      {
        var reached := ReachesTask(next[i], open + {node}, nodes);
        if reached {
          assert Edge(node, next[i]) in EdgesOf(graph);
          PrependEdge(EdgesOf(graph), node, next[i], target);
          return true;
        }
        i := i + 1;
      }
      return false;
    }
  }

  /** The adjacency map, grown one row at a time. */
  method BuildGraph(edges: set<Edge>) returns (graph: map<TaskId, seq<TaskId>>)
    ensures EdgesOf(graph) == edges
  {
    graph := map[];
    var left := edges;
    while left != {}
      invariant left <= edges
      invariant EdgesOf(graph) == edges - left
      decreases left
    {
      ghost var before := EdgesOf(graph);
      var e :| e in left;
      var listed := if e.task in graph then graph[e.task] else [];
      graph := graph[e.task := listed + [e.dependsOn]];
      left := left - {e};
      assert EdgesOf(graph) == before + {e} by {
        forall x: Edge
          ensures x in EdgesOf(graph) <==> x in before || x == e
        {
        }
      }
    }
  }

  /**
   The guard of an edit: one search per new dependency, each with a fresh visited set.
   It answers exactly whether some new dependency already reaches the edited task.
   */
  method WouldCreateCycle(edges: set<Edge>, task: TaskId, deps: seq<TaskId>) returns (cycle: bool)
    ensures cycle <==> exists d :: d in deps && Reaches(edges, d, task)
  {
    var graph := BuildGraph(edges);
    ghost var nodes := (set e | e in edges :: e.dependsOn) + (set d | d in deps);
    assert Within(graph, nodes) by {
      forall a, b | a in graph && b in graph[a]
        ensures b in nodes
      {
        assert Edge(a, b) in EdgesOf(graph);
      }
    }
    var i := 0;
    while i < |deps|
      invariant 0 <= i <= |deps|
      invariant forall j :: 0 <= j < i ==> !Reaches(edges, deps[j], task)
    {
      var search := new CycleSearch(task, graph);
      var found := search.ReachesTask(deps[i], {}, nodes);
      if found {
        return true;
      }
      assert ClosedIn(edges, search.visited);
      ClosedSetBlocks(edges, search.visited, deps[i], task);
      i := i + 1;
    }
    return false;
  }

  // ---------------------------------------------------------------------------
  // Replacing one task's rows

  function Others(edges: set<Edge>, task: TaskId): set<Edge> {
    set e | e in edges && e.task != task
  }

  function RowsOf(task: TaskId, deps: set<TaskId>): set<Edge> {
    set d | d in deps :: Edge(task, d)
  }

  /** `deleteMany` on the task's own rows followed by `create` of the new ones. */
  function Replaced(edges: set<Edge>, task: TaskId, deps: set<TaskId>): set<Edge> {
    Others(edges, task) + RowsOf(task, deps)
  }

  lemma SubsetPath(small: set<Edge>, big: set<Edge>, p: seq<TaskId>)
    requires small <= big && IsPath(small, p)
    ensures IsPath(big, p)
  {
  }

  lemma ConcatPaths(edges: set<Edge>, p: seq<TaskId>, q: seq<TaskId>)
    requires IsPath(edges, p) && IsPath(edges, q) && p[|p| - 1] == q[0]
    ensures IsPath(edges, p + q[1..])
    ensures (p + q[1..])[|p| + |q| - 2] == q[|q| - 1]
  {
    var r := p + q[1..];
    forall i, j | 0 <= i && j == i + 1 && j < |r|
      ensures Edge(r[i], r[j]) in edges
    {
      if j < |p| {
        assert Edge(p[i], p[j]) in edges;
      } else {
        assert r[i] == q[j - |p|] && r[j] == q[j - |p| + 1];
        assert Edge(q[j - |p|], q[j - |p| + 1]) in edges;
      }
    }
  }

  /** The stretch of a closed walk at `task` up to its first return avoids the task's own rows. */
  lemma {:induction false} FirstReturn(edges: set<Edge>, task: TaskId, p: seq<TaskId>)
    requires IsPath(edges, p) && p[|p| - 1] == task
    ensures Reaches(Others(edges, task), p[0], task)
    decreases |p|
  {
    if p[0] == task {
      assert Connects(Others(edges, task), task, task, [task]);
    } else {
      assert Edge(p[0], p[1]) in Others(edges, task);
      FirstReturn(edges, task, p[1..]);
      PrependEdge(Others(edges, task), p[0], p[1], task);
    }
  }

  lemma CycleThroughTask(edges: set<Edge>, task: TaskId, p: seq<TaskId>, k: nat)
    requires IsPath(edges, p) && |p| >= 2 && p[0] == p[|p| - 1]
    requires k < |p| - 1 && p[k] == task
    ensures exists d :: Edge(task, d) in edges && Reaches(Others(edges, task), d, task)
  {
    var turn := p[k..] + p[..k + 1][1..];
    ConcatPaths(edges, p[k..], p[..k + 1]);
    assert turn[|turn| - 1] == task;
    assert turn[0] == task && turn[1] == p[k + 1];
    assert Edge(turn[0], turn[1]) in edges;
    FirstReturn(edges, task, turn[1..]);
    assert turn[1..][0] == turn[1];
  }

  lemma PathBackClosesCycle(edges: set<Edge>, task: TaskId, deps: set<TaskId>, d: TaskId)
    requires d in deps && Reaches(Others(edges, task), d, task)
    ensures !Acyclic(Replaced(edges, task, deps))
  {
    var p :| Connects(Others(edges, task), d, task, p);
    var next := Replaced(edges, task, deps);
    SubsetPath(Others(edges, task), next, p);
    assert Edge(task, d) in next;
    assert IsPath(next, [task] + p);
    assert ([task] + p)[0] == ([task] + p)[|p|];
  }

  lemma AvoidingPath(edges: set<Edge>, task: TaskId, deps: set<TaskId>, p: seq<TaskId>)
    requires IsPath(Replaced(edges, task, deps), p)
    requires forall k :: 0 <= k < |p| - 1 ==> p[k] != task
    ensures IsPath(edges, p)
  {
    forall i, j | 0 <= i && j == i + 1 && j < |p|
      ensures Edge(p[i], p[j]) in edges
    {
      assert Edge(p[i], p[j]) in Replaced(edges, task, deps);
    }
  }

  lemma NewCycleNeedsPathBack(edges: set<Edge>, task: TaskId, deps: set<TaskId>)
    requires Acyclic(edges) && !Acyclic(Replaced(edges, task, deps))
    ensures exists d :: d in deps && Reaches(Others(edges, task), d, task)
  {
    var next := Replaced(edges, task, deps);
    var p :| IsPath(next, p) && |p| >= 2 && p[0] == p[|p| - 1];
    assert Others(next, task) == Others(edges, task);
    if forall k :: 0 <= k < |p| - 1 ==> p[k] != task {
      AvoidingPath(edges, task, deps, p);
      assert false;
    }
    var k :| 0 <= k < |p| - 1 && p[k] == task;
    CycleThroughTask(next, task, p, k);
  }

  /**
   An edit of an acyclic graph keeps it acyclic exactly when no new dependency reaches
   the task without using the task's own rows: the guard rejects every edit that would
   close a cycle and no other edit.
   */
  lemma ReplacementAcyclicIff(edges: set<Edge>, task: TaskId, deps: set<TaskId>)
    requires Acyclic(edges)
    ensures Acyclic(Replaced(edges, task, deps)) <==>
            forall d :: d in deps ==> !Reaches(Others(edges, task), d, task)
  {
    if !Acyclic(Replaced(edges, task, deps)) {
      NewCycleNeedsPathBack(edges, task, deps);
    } else if d :| d in deps && Reaches(Others(edges, task), d, task) {
      PathBackClosesCycle(edges, task, deps, d);
    }
  }

  // ---------------------------------------------------------------------------
  // Runs: the early checks happen outside the transaction that writes

  datatype Edit = Edit(task: TaskId, deps: set<TaskId>)
  datatype Creation = Creation(project: ProjectId, deps: set<TaskId>)

  /**
   `issued` remembers the project of every id ever created (ids are never reused);
   `edits` and `creations` are requests that passed their early project check and have
   not necessarily been written yet.
   */
  datatype State = State(
    tasks: map<TaskId, ProjectId>,
    edges: set<Edge>,
    issued: map<TaskId, ProjectId>,
    edits: set<Edit>,
    creations: set<Creation>)

  predicate Member(tasks: map<TaskId, ProjectId>, t: TaskId, p: ProjectId) {
    t in tasks && tasks[t] == p
  }

  function ProjectEdges(s: State, p: ProjectId): set<Edge> {
    set e | e in s.edges && Member(s.tasks, e.task, p)
  }

  /** The rows the guard reads: the project's rows, without the edited task's own. */
  function GuardRows(s: State, task: TaskId): set<Edge>
    requires task in s.tasks
  {
    Others(ProjectEdges(s, s.tasks[task]), task)
  }

  ghost predicate Guarded(s: State, e: Edit)
    requires e.task in s.tasks
  {
    forall d :: d in e.deps ==> !Reaches(GuardRows(s, e.task), d, e.task)
  }

  /** Foreign keys: a row can only name tasks that exist when it is written. */
  predicate Writable(s: State, e: Edit) {
    e.task in s.tasks && e.deps <= s.tasks.Keys
  }

  function Committed(s: State, e: Edit): State {
    s.(edges := Replaced(s.edges, e.task, e.deps))
  }

  datatype Step =
    | CheckEdit(edit: Edit)
    | CommitEdit(edit: Edit)
    | CheckCreation(creation: Creation)
    | CreateTask(id: TaskId, creation: Creation)
    | DeleteProject(project: ProjectId)

  ghost predicate Enabled(s: State, step: Step) {
    match step
    case CheckEdit(e) =>
      // an edit naming its own task is refused, and every dependency must be in the project
      e.task in s.tasks && e.task !in e.deps
      && forall d :: d in e.deps ==> Member(s.tasks, d, s.tasks[e.task])
    case CommitEdit(e) => e in s.edits && Writable(s, e) && Guarded(s, e)
    case CheckCreation(c) => forall d :: d in c.deps ==> Member(s.tasks, d, c.project)
    case CreateTask(id, c) => c in s.creations && id !in s.issued && c.deps <= s.tasks.Keys
    case DeleteProject(p) => true
  }

  function Next(s: State, step: Step): State {
    match step
    case CheckEdit(e) => s.(edits := s.edits + {e})
    case CommitEdit(e) => Committed(s, e)
    case CheckCreation(c) => s.(creations := s.creations + {c})
    case CreateTask(id, c) =>
      s.(tasks := s.tasks[id := c.project], issued := s.issued[id := c.project],
         edges := s.edges + RowsOf(id, c.deps))
    case DeleteProject(p) =>
      // tasks cascade, and with them every row that names one of them
      s.(tasks := map t | t in s.tasks && s.tasks[t] != p :: s.tasks[t],
         edges := set e | e in s.edges && !Member(s.tasks, e.task, p) && !Member(s.tasks, e.dependsOn, p))
  }

  ghost predicate Invariant(s: State) {
    && (forall e :: e in s.edges ==>
          e.task in s.tasks && e.dependsOn in s.tasks && s.tasks[e.task] == s.tasks[e.dependsOn])
    && Acyclic(s.edges)
    && (forall t :: t in s.tasks ==> Member(s.issued, t, s.tasks[t]))
    && (forall e :: e in s.edits ==>
          e.task in s.issued && e.task !in e.deps
          && forall d :: d in e.deps ==> Member(s.issued, d, s.issued[e.task]))
    && (forall c :: c in s.creations ==> forall d :: d in c.deps ==> Member(s.issued, d, c.project))
  }

  const EMPTY := State(map[], {}, map[], {}, {})

  /** Rows never leave a project, so reading one project's rows loses no path back to the task. */
  lemma GuardRowsSuffice(s: State, task: TaskId, d: TaskId)
    requires Invariant(s) && task in s.tasks && Member(s.tasks, d, s.tasks[task])
    ensures Reaches(Others(s.edges, task), d, task) <==> Reaches(GuardRows(s, task), d, task)
  {
    forall p | Connects(GuardRows(s, task), d, task, p)
      ensures Connects(Others(s.edges, task), d, task, p)
    {
      SubsetPath(GuardRows(s, task), Others(s.edges, task), p);
    }
    forall p | Connects(Others(s.edges, task), d, task, p)
      ensures Connects(GuardRows(s, task), d, task, p)
    {
      PathStaysInProject(s, task, p);
    }
  }

  lemma {:induction false} PathStaysInProject(s: State, task: TaskId, p: seq<TaskId>)
    requires Invariant(s) && task in s.tasks
    requires IsPath(Others(s.edges, task), p) && Member(s.tasks, p[0], s.tasks[task])
    ensures IsPath(GuardRows(s, task), p)
    decreases |p|
  {
    if |p| > 1 {
      assert Edge(p[0], p[1]) in Others(s.edges, task);
      PathStaysInProject(s, task, p[1..]);
      forall i, j | 0 <= i && j == i + 1 && j < |p|
        ensures Edge(p[i], p[j]) in GuardRows(s, task)
      {
        if i > 0 {
          assert p[i] == p[1..][i - 1] && p[j] == p[1..][i];
        }
      }
    }
  }

  /** The search over the project's rows accepts an edit exactly when the new graph is acyclic. */
  lemma GuardIsExact(s: State, e: Edit)
    requires Invariant(s) && e in s.edits && Writable(s, e)
    ensures Guarded(s, e) <==> Acyclic(Committed(s, e).edges)
  {
    ReplacementAcyclicIff(s.edges, e.task, e.deps);
    forall d | d in e.deps
      ensures Reaches(Others(s.edges, e.task), d, e.task) <==> Reaches(GuardRows(s, e.task), d, e.task)
    {
      GuardRowsSuffice(s, e.task, d);
    }
  }

  /** A fresh task has no incoming rows, so its outgoing rows close no cycle. */
  lemma FreshTaskKeepsAcyclic(edges: set<Edge>, id: TaskId, deps: set<TaskId>)
    requires Acyclic(edges) && id !in deps
    requires forall e :: e in edges ==> e.task != id && e.dependsOn != id
    ensures Acyclic(edges + RowsOf(id, deps))
  {
    assert Others(edges, id) == edges;
    ReplacementAcyclicIff(edges, id, deps);
    forall d | d in deps
      ensures !Reaches(edges, d, id)
    {
      var others := (set e | e in edges :: e.dependsOn) + {d};
      ClosedSetBlocks(edges, others, d, id);
    }
  }

  lemma SubsetAcyclic(small: set<Edge>, big: set<Edge>)
    requires small <= big && Acyclic(big)
    ensures Acyclic(small)
  {
    forall p | IsPath(small, p) && |p| >= 2
      ensures p[0] != p[|p| - 1]
    {
      SubsetPath(small, big, p);
    }
  }

  lemma StepKeepsInvariant(s: State, step: Step)
    requires Invariant(s) && Enabled(s, step)
    ensures Invariant(Next(s, step))
  {
    match step
    case CheckEdit(e) =>
    case CheckCreation(c) =>
    case CommitEdit(e) => GuardIsExact(s, e);
    case CreateTask(id, c) =>
      assert forall e :: e in s.edges ==> e.task in s.issued && e.dependsOn in s.issued;
      FreshTaskKeepsAcyclic(s.edges, id, c.deps);
    case DeleteProject(p) => SubsetAcyclic(Next(s, step).edges, s.edges);
  }

  ghost predicate IsRun(start: State, steps: seq<Step>, end: State)
    decreases |steps|
  {
    if steps == [] then start == end
    else Enabled(start, steps[0]) && IsRun(Next(start, steps[0]), steps[1..], end)
  }

  /** In every run, however early checks and writes interleave, no project's graph has a cycle. */
  lemma {:induction false} EveryRunStaysAcyclic(start: State, steps: seq<Step>, end: State)
    requires Invariant(start) && IsRun(start, steps, end)
    ensures Invariant(end)
    decreases |steps|
  {
    if steps != [] {
      StepKeepsInvariant(start, steps[0]);
      EveryRunStaysAcyclic(Next(start, steps[0]), steps[1..], end);
    }
  }

  // ---------------------------------------------------------------------------
  // What a run leaves behind, read off its steps

  /** The dependencies last written for a task. */
  function Latest(steps: seq<Step>, task: TaskId): set<TaskId> {
    if steps == [] then {}
    else
      match steps[|steps| - 1]
      case CommitEdit(e) => if e.task == task then e.deps else Latest(steps[..|steps| - 1], task)
      case CreateTask(id, c) => if id == task then c.deps else Latest(steps[..|steps| - 1], task)
      case _ => Latest(steps[..|steps| - 1], task)
  }

  /** The project of a task that was created and whose project was not deleted since. */
  function Home(steps: seq<Step>, task: TaskId): Option<ProjectId> {
    if steps == [] then None
    else
      var home := Home(steps[..|steps| - 1], task);
      match steps[|steps| - 1]
      case CreateTask(id, c) => if id == task then Some(c.project) else home
      case DeleteProject(p) => if home == Some(p) then None else home
      case _ => home
  }

  lemma {:induction false} RunSplits(start: State, steps: seq<Step>, end: State) returns (mid: State)
    requires IsRun(start, steps, end) && steps != []
    ensures IsRun(start, steps[..|steps| - 1], mid)
    ensures Enabled(mid, steps[|steps| - 1]) && Next(mid, steps[|steps| - 1]) == end
    decreases |steps|
  {
    if |steps| == 1 {
      mid := start;
    } else {
      mid := RunSplits(Next(start, steps[0]), steps[1..], end);
      assert steps[1..][..|steps| - 2] == steps[..|steps| - 1][1..];
    }
  }

  /** The tasks are those with a home, and the rows are exactly the dependencies last written for them. */
  ghost predicate TellsHistory(s: State, steps: seq<Step>) {
    && (forall t :: t in s.tasks <==> Home(steps, t).Some?)
    && (forall t :: t in s.tasks ==> Home(steps, t) == Some(s.tasks[t]))
    && (forall x :: x in s.edges <==> x.task in s.tasks && x.dependsOn in Latest(steps, x.task))
  }

  /**
   Which rows exist after any run: a task's rows are the dependencies its last edit or its creation
   gave it, whatever happened to other tasks and projects meanwhile.
   */
  lemma {:induction false} RunIsHistory(steps: seq<Step>, end: State)
    requires IsRun(EMPTY, steps, end)
    ensures TellsHistory(end, steps)
    decreases |steps|
  {
    if steps != [] {
      var mid := RunSplits(EMPTY, steps, end);
      RunIsHistory(steps[..|steps| - 1], mid);
      EmptyStoreIsSound();
      EveryRunStaysAcyclic(EMPTY, steps[..|steps| - 1], mid);
      StepTellsHistory(mid, steps);
    }
  }

  lemma StepTellsHistory(s: State, steps: seq<Step>)
    requires steps != [] && Invariant(s) && TellsHistory(s, steps[..|steps| - 1]) && Enabled(s, steps[|steps| - 1])
    ensures TellsHistory(Next(s, steps[|steps| - 1]), steps)
  {
  }

  /** The graph in which exactly one task's rows have been exchanged. */
  ghost predicate Exchanged(before: set<Edge>, task: TaskId, deps: set<TaskId>, after: set<Edge>) {
    forall x :: x in after <==> if x.task == task then x.dependsOn in deps else x in before
  }

  lemma ExchangedIsReplaced(before: set<Edge>, task: TaskId, deps: set<TaskId>, after: set<Edge>)
    requires Exchanged(before, task, deps, after)
    ensures after == Replaced(before, task, deps)
  {
  }

  /**
   An edit that nothing interferes with goes through if and only if the task exists, its
   dependencies are tasks of the same project, and the graph with its rows exchanged is acyclic.
   */
  lemma EditGoesThroughIff(s: State, e: Edit, after: set<Edge>)
    requires Invariant(s) && Exchanged(s.edges, e.task, e.deps, after)
    ensures (exists t :: IsRun(s, [CheckEdit(e), CommitEdit(e)], t) && t.edges == after) <==>
            && e.task in s.tasks && (forall d :: d in e.deps ==> d in s.tasks && s.tasks[d] == s.tasks[e.task])
            && Acyclic(after)
  {
    ExchangedIsReplaced(s.edges, e.task, e.deps, after);
    var checked := Next(s, CheckEdit(e));
    var t := Next(checked, CommitEdit(e));
    var steps := [CheckEdit(e), CommitEdit(e)];
    assert steps[1..] == [CommitEdit(e)] && steps[1..][1..] == [];
    assert IsRun(t, [], t);
    if Enabled(s, CheckEdit(e)) {
      StepKeepsInvariant(s, CheckEdit(e));
      GuardIsExact(checked, e);
      assert IsRun(checked, [CommitEdit(e)], t) <==> Enabled(checked, CommitEdit(e));
    } else if e.task in e.deps {
      SelfRowIsCycle(after, e.task);
    }
  }

  /** A creation that nothing interferes with needs a new id and dependencies of its project; the rows are its own. */
  lemma CreationGoesThroughIff(s: State, id: TaskId, c: Creation)
    requires Invariant(s)
    ensures (exists t :: IsRun(s, [CheckCreation(c), CreateTask(id, c)], t) && Member(t.tasks, id, c.project)
                         && forall x :: x in t.edges <==> x in s.edges || (x.task == id && x.dependsOn in c.deps))
            <==> id !in s.issued && forall d :: d in c.deps ==> d in s.tasks && s.tasks[d] == c.project
  {
    var checked := Next(s, CheckCreation(c));
    var t := Next(checked, CreateTask(id, c));
    var steps := [CheckCreation(c), CreateTask(id, c)];
    assert steps[1..] == [CreateTask(id, c)] && steps[1..][1..] == [];
    assert IsRun(t, [], t);
    assert IsRun(checked, [CreateTask(id, c)], t) <==> Enabled(checked, CreateTask(id, c));
  }

  lemma SelfRowIsCycle(edges: set<Edge>, t: TaskId)
    requires Edge(t, t) in edges
    ensures !Acyclic(edges)
  {
    assert IsPath(edges, [t, t]);
  }

  lemma FirstRow(edges: set<Edge>, p: seq<TaskId>)
    requires IsPath(edges, p) && |p| >= 2
    ensures Edge(p[0], p[1]) in edges
  {
  }

  lemma EmptyStoreIsSound()
    ensures Invariant(EMPTY)
  {
    forall p | IsPath(EMPTY.edges, p)
      ensures |p| < 2
    {
      if |p| >= 2 {
        FirstRow(EMPTY.edges, p);
        assert false;
      }
    }
  }

  // ---------------------------------------------------------------------------
  // The transaction itself

  class TaskStore {
    var state: State

    constructor ()
      ensures state == EMPTY && Invariant(state)
    {
      state := EMPTY;
      EmptyStoreIsSound();
    }

    /**
     Lock the project, read its rows, search from every dependency, then replace the rows. A
     task or dependency that vanished since the early check makes the write fail.
     */
    method ReplaceDependencies(task: TaskId, deps: seq<TaskId>) returns (ok: bool)
      requires Invariant(state) && Edit(task, set d | d in deps) in state.edits
      modifies this
      ensures Invariant(state)
      ensures forall after :: Exchanged(old(state).edges, task, (set d | d in deps), after) ==>
                (ok <==>
                 task in old(state).tasks && (forall d :: d in deps ==> d in old(state).tasks) && Acyclic(after))
      ensures ok ==>
                forall x :: x in state.edges <==> if x.task == task then x.dependsOn in deps else x in old(state).edges
      ensures state == old(state).(edges := state.edges) && (!ok ==> state == old(state))
    {
      var edit := Edit(task, set d | d in deps);
      forall after | Exchanged(state.edges, task, edit.deps, after)
        ensures after == Replaced(state.edges, task, edit.deps)
      {
        ExchangedIsReplaced(state.edges, task, edit.deps, after);
      }
      if !Writable(state, edit) {
        return false;
      }
      GuardIsExact(state, edit);
      var cycle := WouldCreateCycle(GuardRows(state, task), task, deps);
      ok := !cycle;
      if ok {
        assert Guarded(state, edit);
        StepKeepsInvariant(state, CommitEdit(edit));
        state := Committed(state, edit);
      }
    }
  }
}
