/** The dependency graph of the scheduler and its cycle check. */
module TaskGraph {
  import opened Core

  type Tasks = map<TaskId, Task>

  /** Every listed dependency has an entry. */
  ghost predicate Closed(tasks: Tasks) {
    forall t, d :: t in tasks && d in tasks[t].dependencies ==> d in tasks
  }

  /** p follows dependency edges, from a task to one of its dependencies at each step. */
  ghost predicate IsPath(tasks: Tasks, p: seq<TaskId>) {
    && |p| > 0
    && (forall i :: 0 <= i < |p| ==> p[i] in tasks)
    && (forall i :: 0 <= i < |p| - 1 ==> p[i + 1] in tasks[p[i]].dependencies)
  }

  ghost predicate IsCycle(tasks: Tasks, p: seq<TaskId>) {
    IsPath(tasks, p) && |p| >= 2 && p[0] == p[|p| - 1]
  }

  ghost predicate HasCycle(tasks: Tasks) {
    exists p :: IsCycle(tasks, p)
  }

  ghost predicate Before(order: seq<TaskId>, i: nat, t: TaskId)
    requires i <= |order|
  {
    exists m :: 0 <= m < i && order[m] == t
  }

  /** Each task of the order comes after all of its dependencies. */
  ghost predicate Topological(tasks: Tasks, order: seq<TaskId>) {
    && (forall i :: 0 <= i < |order| ==> order[i] in tasks)
    && (forall i, d {:trigger Before(order, i, d)} :: 0 <= i < |order| && d in tasks[order[i]].dependencies ==>
        Before(order, i, d))
  }

  lemma {:induction false} PathStaysBefore(tasks: Tasks, order: seq<TaskId>, p: seq<TaskId>, i: nat, j: nat)
    requires Topological(tasks, order) && IsPath(tasks, p)
    requires i < |order| && p[0] == order[i] && 1 <= j < |p|
    ensures Before(order, i, p[j])
    decreases j
  {
    assert p[j - 1 + 1] in tasks[p[j - 1]].dependencies;
    if j == 1 {
      assert Before(order, i, p[j]);
    } else {
      PathStaysBefore(tasks, order, p, i, j - 1);
      var m :| 0 <= m < i && order[m] == p[j - 1];
      assert Before(order, m, p[j]);
    }
  }

  lemma TopologicalIsAcyclic(tasks: Tasks, order: seq<TaskId>)
    requires Topological(tasks, order) && Distinct(order)
    requires forall t :: t in tasks ==> t in order
    ensures !HasCycle(tasks)
  {
    forall p | IsCycle(tasks, p)
      ensures false
    {
      var i :| 0 <= i < |order| && order[i] == p[0];
      PathStaysBefore(tasks, order, p, i, |p| - 1);
    }
  }

  lemma TopologicalAppend(tasks: Tasks, order: seq<TaskId>, t: TaskId)
    requires Topological(tasks, order) && t in tasks
    requires forall d :: d in tasks[t].dependencies ==> d in order
    ensures Topological(tasks, order + [t])
  {
    var longer := order + [t];
    forall i, d | 0 <= i < |longer| && d in tasks[longer[i]].dependencies
      ensures Before(longer, i, d)
    {
      if i < |order| {
        assert Before(order, i, d);
        var m :| 0 <= m < i && order[m] == d;
        assert longer[m] == d;
      } else {
        var m :| 0 <= m < |order| && order[m] == d;
        assert longer[m] == d;
      }
    }
  }

  datatype Color = White | Gray | Black

  /** Gray tasks are the path being explored; black ones are finished, in topological order. */
  ghost predicate Coloring(tasks: Tasks, colors: map<TaskId, Color>, stack: seq<TaskId>, finished: seq<TaskId>) {
    && colors.Keys == tasks.Keys
    && (forall t :: t in tasks ==> (colors[t] == Gray <==> t in stack))
    && (forall t :: t in tasks ==> (colors[t] == Black <==> t in finished))
    && (stack == [] || IsPath(tasks, stack))
    && Topological(tasks, finished) && Distinct(finished)
  }

  ghost function Unvisited(colors: map<TaskId, Color>): set<TaskId> {
    set t | t in colors && colors[t] == White
  }

  /** A gray dependency of the last task on the stack closes a cycle. */
  lemma GrayClosesCycle(tasks: Tasks, stack: seq<TaskId>, d: TaskId)
    requires IsPath(tasks, stack) && d in stack && d in tasks[stack[|stack| - 1]].dependencies
    ensures HasCycle(tasks)
  {
    var i :| 0 <= i < |stack| && stack[i] == d;
    var p := stack[i..] + [d];
    assert IsPath(tasks, p) by {
      forall k | 0 <= k < |p| - 1
        ensures p[k + 1] in tasks[p[k]].dependencies
      {
        assert p[k] == stack[i + k];
        if k + 1 < |stack| - i {
          assert p[k + 1] == stack[i + k + 1];
        }
      }
    }
    assert IsCycle(tasks, p);
  }

  lemma ColorOf(tasks: Tasks, colors: map<TaskId, Color>, stack: seq<TaskId>, finished: seq<TaskId>, t: TaskId)
    requires Coloring(tasks, colors, stack, finished) && t in tasks
    ensures t in colors && (colors[t] == Gray <==> t in stack) && (colors[t] == Black <==> t in finished)
    ensures stack != [] ==> IsPath(tasks, stack)
    ensures Topological(tasks, finished)
  {
  }

  lemma TurnsGray(tasks: Tasks, colors: map<TaskId, Color>, stack: seq<TaskId>, finished: seq<TaskId>, node: TaskId)
    requires Coloring(tasks, colors, stack, finished) && node in tasks && colors[node] == White
    requires stack != [] ==> node in tasks[stack[|stack| - 1]].dependencies
    ensures Coloring(tasks, colors[node := Gray], stack + [node], finished)
    ensures Unvisited(colors[node := Gray]) < Unvisited(colors)
  {
    assert node in Unvisited(colors) && node !in Unvisited(colors[node := Gray]);
    assert forall t :: t in stack + [node] <==> t in stack || t == node;
    hide Topological;
  }

  lemma TurnsBlack(tasks: Tasks, colors: map<TaskId, Color>, stack: seq<TaskId>, finished: seq<TaskId>, node: TaskId)
    requires Coloring(tasks, colors, stack + [node], finished) && node in tasks && node !in stack
    requires forall d :: d in tasks[node].dependencies ==> d in finished
    ensures Coloring(tasks, colors[node := Black], stack, finished + [node])
    ensures Unvisited(colors[node := Black]) <= Unvisited(colors)
  {
    TopologicalAppend(tasks, finished, node);
    var path := stack + [node];
    assert path[|path| - 1] == node;
    assert path[..|path| - 1] == stack;
    assert forall t :: t in path <==> t in stack || t == node;
    assert forall t :: t in finished + [node] <==> t in finished || t == node;
    hide Topological;
  }

  method Dfs(tasks: Tasks, node: TaskId, colors: map<TaskId, Color>, ghost stack: seq<TaskId>,
      ghost finished: seq<TaskId>)
    returns (found: Option<TaskId>, after: map<TaskId, Color>, ghost done: seq<TaskId>)
    requires Closed(tasks) && node in tasks && Coloring(tasks, colors, stack, finished)
    requires node in colors && colors[node] == White
    requires stack != [] ==>
               stack[|stack| - 1] in tasks && node in tasks[stack[|stack| - 1]].dependencies
    ensures found.Some? ==> HasCycle(tasks)
    ensures found.None? ==> Coloring(tasks, after, stack, done) && node in done && finished <= done
    ensures found.None? ==> Unvisited(after) < Unvisited(colors)
    decreases Unvisited(colors)
  {
    hide Coloring, HasCycle, IsPath, Topological, Unvisited;
    ColorOf(tasks, colors, stack, finished, node);
    TurnsGray(tasks, colors, stack, finished, node);
    after, done := colors[node := Gray], finished;
    ghost var path := stack + [node];
    var i := 0;
    var deps := tasks[node].dependencies;
    while i < |deps|
      invariant 0 <= i <= |deps|
      invariant Coloring(tasks, after, path, done) && finished <= done
      invariant forall k :: 0 <= k < i ==> deps[k] in done
      invariant Unvisited(after) < Unvisited(colors)
    {
      var dep := deps[i];
      ColorOf(tasks, after, path, done, dep);
      match after[dep] {
        case Gray =>
          GrayClosesCycle(tasks, path, dep);
          return Some(dep), after, done;
        case White =>
          var inner;
          inner, after, done := Dfs(tasks, dep, after, path, done);
          if inner.Some? {
            return Some(dep), after, done;
          }
        case Black =>
      }
      i := i + 1;
    }
    TurnsBlack(tasks, after, stack, done, node);
    ColorOf(tasks, after, path, done, node);
    after, done := after[node := Black], done + [node];
    found := None;
  }

  /** The white/gray/black search over all tasks, in any order, finds a cycle exactly when there is one. */
  method DetectCycle(tasks: Tasks) returns (found: Option<TaskId>)
    requires Closed(tasks)
    ensures found.Some? <==> HasCycle(tasks)
  {
    var colors := map t | t in tasks :: White;
    var todo: set<TaskId> := tasks.Keys;
    ghost var finished: seq<TaskId> := [];
    while todo != {}
      invariant Coloring(tasks, colors, [], finished)
      invariant todo <= tasks.Keys <= todo + Elements(finished)
      decreases todo
    {
      var t := Any(todo);
      todo := todo - {t};
      if colors[t] == White {
        var inner;
        inner, colors, finished := Dfs(tasks, t, colors, [], finished);
        if inner.Some? {
          return Some(t);
        }
      }
    }
    TopologicalIsAcyclic(tasks, finished);
    return None;
  }
}
