/**
 Depth-first cycle detection: `_find_cycle` over module dependencies and
 `_validate_acyclic` over task dependencies, against the definition of a cycle.
 */
module CycleDetection {
  import opened Common
  import opened Ordering

  type Node = string
  type Graph = map<Node, set<Node>>

  predicate Closed(g: Graph) {
    forall n :: n in g ==> g[n] <= g.Keys
  }

  predicate Edge(g: Graph, a: Node, b: Node) {
    a in g && b in g[a]
  }

  predicate IsPath(g: Graph, p: seq<Node>) {
    forall i :: 0 <= i < |p| - 1 ==> Edge(g, p[i], p[i + 1])
  }

  /** A closed path of at least one edge; the first node is repeated at the end. */
  predicate IsCycle(g: Graph, c: seq<Node>) {
    |c| >= 2 && c[0] == c[|c| - 1] && IsPath(g, c)
  }

  ghost predicate Acyclic(g: Graph) {
    !exists c :: IsCycle(g, c)
  }

  // ---------------------------------------------------------------------------
  // Finishing orders certify acyclicity

  /** Nodes listed so that everything a node leads to comes before it. */
  ghost predicate FinishingOrder(g: Graph, done: seq<Node>) {
    && Distinct(done)
    && forall i :: 0 <= i < |done| ==> done[i] in g && forall d :: d in g[done[i]] ==> d in done[..i]
  }

  lemma {:induction false} PathDescends(g: Graph, done: seq<Node>, p: seq<Node>, i: nat, j: nat)
    requires FinishingOrder(g, done) && IsPath(g, p) && 2 <= |p|
    requires i < |done| && done[i] == p[0]
    requires j < |done| && done[j] == p[|p| - 1]
    ensures j < i
    decreases |p|
  {
    assert Edge(g, p[0], p[1]);
    assert p[1] in done[..i];
    var k :| 0 <= k < i && done[k] == p[1];
    if |p| > 2 {
      assert IsPath(g, p[1..]) by {
        forall m | 0 <= m < |p[1..]| - 1
          ensures Edge(g, p[1..][m], p[1..][m + 1])
        {
          assert Edge(g, p[m + 1], p[m + 2]);
        }
      }
      PathDescends(g, done, p[1..], k, j);
    }
  }

  lemma FinishingOrderIsAcyclic(g: Graph, done: seq<Node>)
    requires FinishingOrder(g, done) && forall n :: n in g ==> n in done
    ensures Acyclic(g)
  {
    forall c | IsCycle(g, c)
      ensures false
    {
      assert Edge(g, c[0], c[1]);
      var i :| 0 <= i < |done| && done[i] == c[0];
      PathDescends(g, done, c, i, i);
    }
  }

  /** In an acyclic graph every nonempty set of nodes has one that leads to no other of them. */
  lemma SinkExists(g: Graph, s: set<Node>)
    requires Acyclic(g) && s != {} && s <= g.Keys
    ensures exists n :: n in s && g[n] !! s
  {
    if forall n :: n in s ==> !(g[n] !! s) {
      var n :| n in s;
      WalkFindsCycle(g, s, [n]);
    }
  }

  lemma {:induction false} WalkFindsCycle(g: Graph, s: set<Node>, p: seq<Node>)
    requires s <= g.Keys && forall n :: n in s ==> !(g[n] !! s)
    requires p != [] && Distinct(p) && IsPath(g, p) && forall x :: x in p ==> x in s
    ensures !Acyclic(g)
    decreases s - (set x | x in p)
  {
    var last := p[|p| - 1];
    var d :| d in g[last] && d in s;
    var longer := p + [d];
    assert IsPath(g, longer);
    if d in p {
      var i :| 0 <= i < |p| && p[i] == d;
      BackEdge(g, p, i);
    } else {
      assert d in s - (set x | x in p) && d in longer;
      WalkFindsCycle(g, s, longer);
    }
  }

  lemma BackEdge(g: Graph, p: seq<Node>, i: nat)
    requires i < |p| && IsPath(g, p) && Edge(g, p[|p| - 1], p[i])
    ensures IsCycle(g, p[i..] + [p[i]])
  {
    var c := p[i..] + [p[i]];
    forall m | 0 <= m < |c| - 1
      ensures Edge(g, c[m], c[m + 1])
    {
      assert m + 1 < |p[i..]| ==> Edge(g, p[i + m], p[i + m + 1]);
    }
  }

  // ---------------------------------------------------------------------------
  // The state of a depth-first search

  /** Open nodes form a path, closed nodes a finishing order, and the two do not meet. */
  ghost predicate Search(g: Graph, visiting: set<Node>, visited: set<Node>, stack: seq<Node>, done: seq<Node>) {
    && Closed(g)
    && visiting <= g.Keys
    && visiting !! visited
    && Distinct(stack) && IsPath(g, stack)
    && (forall n :: n in visiting <==> n in stack)
    && (forall n :: n in visited <==> n in done)
    && FinishingOrder(g, done)
  }

  lemma SearchFacts(g: Graph, visiting: set<Node>, visited: set<Node>, stack: seq<Node>, done: seq<Node>)
    requires Search(g, visiting, visited, stack, done)
    ensures Closed(g) && visiting <= g.Keys && visiting !! visited && IsPath(g, stack)
    ensures forall n :: n in visiting <==> n in stack
  {
  }

  lemma CycleRefutes(g: Graph, c: seq<Node>)
    requires IsCycle(g, c)
    ensures !Acyclic(g)
  {
  }

  lemma SearchEnters(g: Graph, visiting: set<Node>, visited: set<Node>, stack: seq<Node>, done: seq<Node>, n: Node)
    requires Search(g, visiting, visited, stack, done)
    requires n in g && n !in visiting && n !in visited
    requires stack != [] ==> Edge(g, stack[|stack| - 1], n)
    ensures Search(g, visiting + {n}, visited, stack + [n], done)
  {
    var longer := stack + [n];
    forall i | 0 <= i < |longer| - 1
      ensures Edge(g, longer[i], longer[i + 1])
    {
      assert i + 1 < |stack| ==> Edge(g, stack[i], stack[i + 1]);
    }
  }

  lemma SearchLeaves(g: Graph, visiting: set<Node>, visited: set<Node>, stack: seq<Node>, done: seq<Node>)
    requires stack != [] && Search(g, visiting, visited, stack, done)
    requires var n := stack[|stack| - 1]; n in g && g[n] <= visited
    ensures var n := stack[|stack| - 1];
            Search(g, visiting - {n}, visited + {n}, stack[..|stack| - 1], done + [n])
  {
    var n := stack[|stack| - 1];
    var shorter := stack[..|stack| - 1];
    forall x
      ensures x in visiting - {n} <==> x in shorter
    {
      assert x in stack <==> x in shorter || x == n;
    }
    var longer := done + [n];
    forall i | 0 <= i < |longer|
      ensures longer[i] in g && forall d :: d in g[longer[i]] ==> d in longer[..i]
    {
      if i < |done| {
        assert longer[..i] == done[..i];
      } else {
        assert longer[..i] == done;
      }
    }
  }

  /** The list enumerates the set, in whatever order `sorted` puts it. */
  ghost predicate Enumerates(order: set<Node> -> seq<Node>) {
    forall s, n :: n in order(s) <==> n in s
  }

  // ---------------------------------------------------------------------------
  // tools/check_core_boundaries.py

  class CycleFinder {
    const graph: Graph
    const order: set<Node> -> seq<Node>
    var visiting: set<Node>
    var visited: set<Node>
    var stack: seq<Node>
    ghost var done: seq<Node>

    ghost predicate Valid()
      reads this
    {
      Search(graph, visiting, visited, stack, done)
    }

    constructor (g: Graph, sorted: set<Node> -> seq<Node>)
      requires Closed(g) && Enumerates(sorted)
      ensures graph == g && order == sorted && Valid() && stack == []
    {
      graph, order := g, sorted;
      visiting, visited, stack, done := {}, {}, [], [];
    }

    method IndexOf(n: Node) returns (i: nat)
      requires n in stack
      ensures i < |stack| && stack[i] == n
    {
      i := 0;
      assert stack[..|stack|] == stack;
      while i < |stack| && stack[i] != n
        invariant i <= |stack| && n !in stack[..i]
      {
        assert stack[..i + 1] == stack[..i] + [stack[i]];
        i := i + 1;
      }
    }

    method Visit(n: Node) returns (cycle: Option<seq<Node>>)
      requires Enumerates(order) && Valid() && n in graph
      requires stack != [] ==> Edge(graph, stack[|stack| - 1], n)
      modifies this
      ensures cycle.Some? ==> IsCycle(graph, cycle.value)
      ensures cycle.None? ==>
                Valid() && stack == old(stack) && visiting == old(visiting) && old(visited) <= visited && n in visited
      decreases graph.Keys - visiting - visited
    {
      hide Search, IsPath, IsCycle;
      SearchFacts(graph, visiting, visited, stack, done);
      if n in visiting {
        var i := IndexOf(n);
        BackEdge(graph, stack, i);
        return Some(stack[i..] + [n]);
      }
      if n in visited {
        return None;
      }
      SearchEnters(graph, visiting, visited, stack, done, n);
      visiting := visiting + {n};
      stack := stack + [n];
      var dependencies := order(graph[n]);
      for i := 0 to |dependencies|
        invariant Valid() && stack == old(stack) + [n] && visiting == old(visiting) + {n} && old(visited) <= visited
        invariant forall j :: 0 <= j < i ==> dependencies[j] in visited
      {
        SearchFacts(graph, visiting, visited, stack, done);
        assert Edge(graph, n, dependencies[i]);
        assert n in old(graph.Keys - visiting - visited) && n !in graph.Keys - visiting - visited;
        cycle := Visit(dependencies[i]);
        if cycle.Some? {
          return;
        }
      }
      SearchLeaves(graph, visiting, visited, stack, done);
      assert stack[..|stack| - 1] == old(stack);
      stack := stack[..|stack| - 1];
      visiting := visiting - {n};
      visited := visited + {n};
      done := done + [n];
      return None;
    }
  }

  /** None exactly when the graph has no cycle; otherwise the path returned is a cycle of it. */
  method FindCycle(graph: Graph, sorted: set<Node> -> seq<Node>) returns (cycle: Option<seq<Node>>)
    requires Closed(graph) && Enumerates(sorted)
    ensures cycle.None? <==> Acyclic(graph)
    ensures cycle.Some? ==> IsCycle(graph, cycle.value)
  {
    var finder := new CycleFinder(graph, sorted);
    var nodes := sorted(graph.Keys);
    for i := 0 to |nodes|
      invariant finder.Valid() && finder.stack == []
      invariant finder.graph == graph && finder.order == sorted
      invariant forall j :: 0 <= j < i ==> nodes[j] in finder.visited
    {
      assert nodes[i] in graph.Keys;
      cycle := finder.Visit(nodes[i]);
      if cycle.Some? {
        return;
      }
    }
    FinishingOrderIsAcyclic(graph, finder.done);
    return None;
  }

  // ---------------------------------------------------------------------------
  // scripts/dissertation_queue.py

  type Dependencies = map<Node, seq<Node>>

  function Edges(tasks: Dependencies): Graph {
    map id | id in tasks :: set d | d in tasks[id]
  }

  lemma EdgesOf(tasks: Dependencies)
    ensures Edges(tasks).Keys == tasks.Keys
    ensures forall id, d :: id in tasks && d in tasks[id] ==> Edge(Edges(tasks), id, d)
    ensures forall id, d :: id in tasks && d in Edges(tasks)[id] ==> d in tasks[id]
  {
  }

  class AcyclicValidator {
    const tasks: Dependencies
    var visiting: set<Node>
    var visited: set<Node>
    ghost var stack: seq<Node>
    ghost var done: seq<Node>

    ghost predicate Valid()
      reads this
    {
      Search(Edges(tasks), visiting, visited, stack, done)
    }

    constructor (tasks: Dependencies)
      requires Closed(Edges(tasks))
      ensures this.tasks == tasks && Valid() && stack == []
    {
      this.tasks := tasks;
      visiting, visited, stack, done := {}, {}, [], [];
    }

    method Visit(id: Node) returns (ok: bool)
      requires Valid() && id in tasks
      requires stack != [] ==> Edge(Edges(tasks), stack[|stack| - 1], id)
      modifies this
      ensures !ok ==> !Acyclic(Edges(tasks))
      ensures ok ==>
                Valid() && stack == old(stack) && visiting == old(visiting) && old(visited) <= visited && id in visited
      decreases tasks.Keys - visiting - visited
    {
      hide Search, IsPath, IsCycle, Acyclic, Edges;
      ghost var g := Edges(tasks);
      EdgesOf(tasks);
      SearchFacts(g, visiting, visited, stack, done);
      if id in visited {
        return true;
      }
      if id in visiting {
        ghost var i :| 0 <= i < |stack| && stack[i] == id;
        BackEdge(g, stack, i);
        CycleRefutes(g, stack[i..] + [stack[i]]);
        return false;
      }
      SearchEnters(g, visiting, visited, stack, done, id);
      visiting := visiting + {id};
      stack := stack + [id];
      var dependencies := tasks[id];
      for i := 0 to |dependencies|
        invariant Valid() && stack == old(stack) + [id] && visiting == old(visiting) + {id} && old(visited) <= visited
        invariant forall j :: 0 <= j < i ==> dependencies[j] in visited
      {
        SearchFacts(g, visiting, visited, stack, done);
        assert Edge(g, id, dependencies[i]);
        assert id in old(tasks.Keys - visiting - visited) && id !in tasks.Keys - visiting - visited;
        ok := Visit(dependencies[i]);
        if !ok {
          return;
        }
      }
      SearchLeaves(g, visiting, visited, stack, done);
      assert stack[..|stack| - 1] == old(stack);
      stack := stack[..|stack| - 1];
      visiting := visiting - {id};
      visited := visited + {id};
      done := done + [id];
      return true;
    }
  }

  /** Accepts exactly the acyclic dependency graphs; dictionary order is the order of `ids`. */
  method ValidateAcyclic(tasks: Dependencies, ids: seq<Node>) returns (ok: bool)
    requires Closed(Edges(tasks)) && forall id :: id in ids <==> id in tasks
    ensures ok <==> Acyclic(Edges(tasks))
  {
    var validator := new AcyclicValidator(tasks);
    for i := 0 to |ids|
      invariant validator.Valid() && validator.stack == [] && validator.tasks == tasks
      invariant forall j :: 0 <= j < i ==> ids[j] in validator.visited
    {
      assert ids[i] in tasks;
      ok := validator.Visit(ids[i]);
      if !ok {
        return;
      }
    }
    FinishingOrderIsAcyclic(Edges(tasks), validator.done);
    return true;
  }
}
