/** What a valid work queue is, said of its sprints and tasks: no table or graph is built. */
module QueueMeaning {
  import opened Common
  import opened Ordering
  import opened CycleDetection
  import opened DissertationQueue

  predicate KnownSprint(q: Queue, id: string) {
    exists s :: s in q.sprints && s.id == id
  }

  /** The task on its own is fit to be in the queue. */
  predicate Fit(q: Queue, t: Task) {
    && KnownSprint(q, t.sprint)
    && |t.sprint| < |t.id| && t.id[..|t.sprint|] == t.sprint && t.id[|t.sprint|] == '-'
    && t.status in q.allowedStatuses
    && t.claimRisk in {Low, Medium, High, Critical, ApprovalGate}
    && |t.outputs| > 0 && |t.acceptanceCriteria| > 0 && |t.validation| > 0
    && (t.approvalRequired ==> !t.automationEligible)
    && (t.status == Completed ==> t.hasEvidence)
    && (t.status == Ready ==> t.automationEligible)
  }

  /** The task may wait for `d`: another task, of a sprint that does not come later. */
  predicate MayDependOn(q: Queue, t: Task, d: string) {
    d != t.id &&
    exists u, x, y :: && u in q.tasks && u.id == d
                      && x in q.sprints && x.id == u.sprint && y in q.sprints && y.id == t.sprint
                      && x.order <= y.order
  }

  predicate DependsOn(q: Queue, a: string, b: string) {
    exists t :: t in q.tasks && t.id == a && b in t.dependencies
  }

  /** Tasks that wait for one another in a circle. */
  predicate Circle(q: Queue, p: seq<string>) {
    && |p| >= 2 && p[0] == p[|p| - 1]
    && forall k :: 0 <= k < |p| - 1 ==> DependsOn(q, p[k], p[k + 1])
  }

  ghost predicate Sound(q: Queue) {
    && q.header == Header(Some("ets.dissertation.queue.v1"), Some("ShannonBrayNC/ETS"), Some("dissertation_only"),
                          Some(true), Some("PT1H"), Some(1), Some(false), Some(true), Some(false))
    && q.allowedStatuses != {}
    && KnownSprint(q, q.activeSprint)
    && (forall i, j :: 0 <= i < j < |q.sprints| ==>
          q.sprints[i].id != q.sprints[j].id && q.sprints[i].order != q.sprints[j].order)
    && (forall i, j :: 0 <= i < j < |q.tasks| ==>
          && q.tasks[i].id != q.tasks[j].id
          && (q.tasks[i].sprint, q.tasks[i].taskOrder) != (q.tasks[j].sprint, q.tasks[j].taskOrder))
    && (forall t :: t in q.tasks ==> Fit(q, t))
    && (forall t :: t in q.tasks ==> Distinct(t.dependencies))
    && (forall t, d :: t in q.tasks && d in t.dependencies ==> MayDependOn(q, t, d))
    && !exists p :: Circle(q, p)
  }

  lemma HeaderIff(h: Header)
    ensures HeaderOk(h) <==>
              h == Header(Some("ets.dissertation.queue.v1"), Some("ShannonBrayNC/ETS"), Some("dissertation_only"),
                          Some(true), Some("PT1H"), Some(1), Some(false), Some(true), Some(false))
  {
  }

  lemma KnownIff(q: Queue, id: string)
    ensures KnownSprint(q, id) <==> id in SprintOrders(q.sprints)
  {
    SprintOrdersKeys(q.sprints);
    if id in SprintOrders(q.sprints) {
      var i :| 0 <= i < |q.sprints| && q.sprints[i].id == id;
      assert q.sprints[i] in q.sprints;
    }
  }

  lemma PrefixIff(s: string, id: string)
    ensures s + "-" <= id <==> |s| < |id| && id[..|s|] == s && id[|s|] == '-'
  {
    if s + "-" <= id {
      assert id[..|s| + 1] == s + "-";
      assert id[..|s|] == (s + "-")[..|s|] == s && id[|s|] == (s + "-")[|s|];
    }
    if |s| < |id| && id[..|s|] == s && id[|s|] == '-' {
      assert id[..|s| + 1] == s + "-";
    }
  }

  lemma FitIff(q: Queue, t: Task)
    ensures Fit(q, t) <==> TaskOk(q.allowedStatuses, SprintOrders(q.sprints), t)
  {
    hide KnownSprint;
    KnownIff(q, t.sprint);
    PrefixIff(t.sprint, t.id);
  }

  lemma MayDependOk(q: Queue, t: Task, d: string)
    requires SprintsDistinct(q.sprints) && TasksDistinct(q.tasks) && MayDependOn(q, t, d)
    ensures DependencyOk(SprintOrders(q.sprints), ById(q.tasks), t, d)
  {
    hide ById, SprintOrders, SprintsDistinct, TasksDistinct;
    ByIdLookup(q.tasks);
    var u, x, y :| && u in q.tasks && u.id == d
                   && x in q.sprints && x.id == u.sprint && y in q.sprints && y.id == t.sprint
                   && x.order <= y.order;
    var i :| 0 <= i < |q.tasks| && q.tasks[i] == u;
    SprintOrderAt(q.sprints, x);
    SprintOrderAt(q.sprints, y);
  }

  lemma SprintNamed(q: Queue, id: string) returns (x: Sprint)
    requires SprintsDistinct(q.sprints) && id in SprintOrders(q.sprints)
    ensures x in q.sprints && x.id == id && SprintOrders(q.sprints)[id] == x.order
  {
    hide SprintOrders, SprintsDistinct;
    SprintOrdersKeys(q.sprints);
    var k :| 0 <= k < |q.sprints| && q.sprints[k].id == id;
    x := q.sprints[k];
    SprintOrderAt(q.sprints, x);
  }

  lemma DependencyMay(q: Queue, t: Task, d: string)
    requires SprintsDistinct(q.sprints) && TasksDistinct(q.tasks)
    requires DependencyOk(SprintOrders(q.sprints), ById(q.tasks), t, d)
    ensures MayDependOn(q, t, d)
  {
    hide ById, SprintOrders, SprintsDistinct, TasksDistinct;
    ByIdLookup(q.tasks);
    var i :| 0 <= i < |q.tasks| && q.tasks[i].id == d;
    var u := q.tasks[i];
    var x := SprintNamed(q, u.sprint);
    var y := SprintNamed(q, t.sprint);
    assert u in q.tasks;
  }

  lemma DependsIff(q: Queue, a: string, b: string)
    requires TasksDistinct(q.tasks)
    ensures DependsOn(q, a, b) <==> Edge(DependencyGraph(q), a, b)
  {
    hide ById, TasksDistinct;
    ByIdLookup(q.tasks);
    EdgesOf(DependenciesOf(ById(q.tasks)));
    if DependsOn(q, a, b) {
      var t :| t in q.tasks && t.id == a && b in t.dependencies;
      var i :| 0 <= i < |q.tasks| && q.tasks[i] == t;
    }
    if Edge(DependencyGraph(q), a, b) {
      var i :| 0 <= i < |q.tasks| && q.tasks[i].id == a;
      assert q.tasks[i] in q.tasks;
    }
  }

  lemma CircleIff(q: Queue)
    requires TasksDistinct(q.tasks)
    ensures Acyclic(DependencyGraph(q)) <==> !exists p :: Circle(q, p)
  {
    hide DependencyGraph, DependsOn, Edge, TasksDistinct;
    forall p
      ensures IsCycle(DependencyGraph(q), p) <==> Circle(q, p)
    {
      forall k | 0 <= k < |p| - 1
        ensures DependsOn(q, p[k], p[k + 1]) <==> Edge(DependencyGraph(q), p[k], p[k + 1])
      {
        DependsIff(q, p[k], p[k + 1]);
      }
    }
  }

  lemma DependenciesIff(q: Queue, t: Task)
    requires SprintsDistinct(q.sprints) && TasksDistinct(q.tasks)
    ensures DependenciesOk(SprintOrders(q.sprints), ById(q.tasks), t) <==>
              Distinct(t.dependencies) && forall d :: d in t.dependencies ==> MayDependOn(q, t, d)
  {
    hide MayDependOn, DependencyOk, SprintsDistinct, TasksDistinct;
    forall d
      ensures MayDependOn(q, t, d) <==> DependencyOk(SprintOrders(q.sprints), ById(q.tasks), t, d)
    {
      if MayDependOn(q, t, d) {
        MayDependOk(q, t, d);
      }
      if DependencyOk(SprintOrders(q.sprints), ById(q.tasks), t, d) {
        DependencyMay(q, t, d);
      }
    }
    assert forall k :: 0 <= k < |t.dependencies| ==> t.dependencies[k] in t.dependencies;
  }

  /** What `validate_queue` accepts, said of the sprints and tasks themselves. */
  lemma ValidQueueIff(q: Queue)
    ensures ValidQueue(q) <==> Sound(q)
  {
    hide HeaderOk, KnownSprint, Fit, TaskOk, SprintOrders, ById, MayDependOn, DependenciesOk, Acyclic, Circle, Distinct;
    HeaderIff(q.header);
    KnownIff(q, q.activeSprint);
    forall t
      ensures Fit(q, t) <==> TaskOk(q.allowedStatuses, SprintOrders(q.sprints), t)
    {
      FitIff(q, t);
    }
    assert TasksDistinct(q.tasks) <==>
           forall i, j :: 0 <= i < j < |q.tasks| ==>
             && q.tasks[i].id != q.tasks[j].id
             && (q.tasks[i].sprint, q.tasks[i].taskOrder) != (q.tasks[j].sprint, q.tasks[j].taskOrder);
    if SprintsDistinct(q.sprints) && TasksDistinct(q.tasks) {
      CircleIff(q);
      forall t
        ensures DependenciesOk(SprintOrders(q.sprints), ById(q.tasks), t) <==>
                  Distinct(t.dependencies) && forall d :: d in t.dependencies ==> MayDependOn(q, t, d)
      {
        DependenciesIff(q, t);
      }
      assert forall i :: 0 <= i < |q.tasks| ==> q.tasks[i] in q.tasks;
    }
  }
}
