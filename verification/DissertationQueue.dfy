/**
 The dissertation work queue: validation, selection of the next task, and what repeated
 passes over the queue achieve.
 */
module DissertationQueue {
  import opened Common
  import opened Ordering
  import opened CycleDetection

  /** The statuses the program compares against; any other text is kept by name. */
  datatype Status = Planned | Ready | Completed | Blocked | HumanReview | Status(name: string)

  datatype Risk = Low | Medium | High | Critical | ApprovalGate | UnknownRisk(name: string)

  datatype Sprint = Sprint(id: string, order: int)

  datatype Task = Task(
    id: string, sprint: string, taskOrder: int, priority: int, status: Status,
    automationEligible: bool, approvalRequired: bool, dependencies: seq<string>,
    outputs: seq<string>, acceptanceCriteria: seq<string>, validation: seq<string>,
    claimRisk: Risk, hasEvidence: bool)

  /** What the queue says of itself and of how it is worked; None is a value absent or of another type. */
  datatype Header = Header(
    schemaVersion: Option<string>, repository: Option<string>, mode: Option<string>, othersPaused: Option<bool>,
    cadence: Option<string>, tasksPerPass: Option<int>, overlapAllowed: Option<bool>,
    evidenceRequired: Option<bool>, publicationAllowed: Option<bool>)

  datatype Queue = Queue(
    header: Header, allowedStatuses: set<Status>, activeSprint: string, sprints: seq<Sprint>, tasks: seq<Task>)

  datatype QueueError = QueueValidationError

  // ---------------------------------------------------------------------------
  // What a valid queue is

  function SprintOrders(sprints: seq<Sprint>): map<string, int> {
    if sprints == [] then map[]
    else
      var last := sprints[|sprints| - 1];
      SprintOrders(sprints[..|sprints| - 1])[last.id := last.order]
  }

  function ById(tasks: seq<Task>): map<string, Task> {
    if tasks == [] then map[]
    else
      var last := tasks[|tasks| - 1];
      ById(tasks[..|tasks| - 1])[last.id := last]
  }

  function DependenciesOf(byId: map<string, Task>): Dependencies {
    map id | id in byId :: byId[id].dependencies
  }

  function DependencyGraph(q: Queue): Graph {
    Edges(DependenciesOf(ById(q.tasks)))
  }

  /** One task per hourly pass, no overlap, evidence on completion, nothing published, other work paused. */
  predicate HeaderOk(h: Header) {
    && h.schemaVersion == Some("ets.dissertation.queue.v1")
    && h.repository == Some("ShannonBrayNC/ETS")
    && h.mode == Some("dissertation_only")
    && h.othersPaused == Some(true)
    && h.cadence == Some("PT1H") && h.tasksPerPass == Some(1)
    && h.overlapAllowed == Some(false)
    && h.evidenceRequired == Some(true)
    && h.publicationAllowed == Some(false)
  }

  predicate SprintsDistinct(sprints: seq<Sprint>) {
    forall i, j :: 0 <= i < j < |sprints| ==> sprints[i].id != sprints[j].id && sprints[i].order != sprints[j].order
  }

  predicate SprintsOk(q: Queue) {
    SprintsDistinct(q.sprints) && q.activeSprint in SprintOrders(q.sprints)
  }

  predicate TaskOk(statuses: set<Status>, orders: map<string, int>, t: Task) {
    && t.sprint in orders
    && t.sprint + "-" <= t.id
    && t.status in statuses
    && !t.claimRisk.UnknownRisk?
    && t.outputs != [] && t.acceptanceCriteria != [] && t.validation != []
    && !(t.approvalRequired && t.automationEligible)
    && (t.status == Completed ==> t.hasEvidence)
    && (t.status == Ready ==> t.automationEligible)
  }

  predicate SameSlot(a: Task, b: Task) {
    a.id == b.id || (a.sprint == b.sprint && a.taskOrder == b.taskOrder)
  }

  predicate TasksDistinct(tasks: seq<Task>) {
    forall i, j :: 0 <= i < j < |tasks| ==> !SameSlot(tasks[i], tasks[j])
  }

  predicate TasksOk(q: Queue) {
    && TasksDistinct(q.tasks)
    && forall i :: 0 <= i < |q.tasks| ==> TaskOk(q.allowedStatuses, SprintOrders(q.sprints), q.tasks[i])
  }

  predicate DependencyOk(orders: map<string, int>, byId: map<string, Task>, t: Task, d: string) {
    && d != t.id
    && d in byId
    && byId[d].sprint in orders && t.sprint in orders
    && orders[byId[d].sprint] <= orders[t.sprint]
  }

  predicate DependenciesOk(orders: map<string, int>, byId: map<string, Task>, t: Task) {
    && Distinct(t.dependencies)
    && forall k :: 0 <= k < |t.dependencies| ==> DependencyOk(orders, byId, t, t.dependencies[k])
  }

  ghost predicate ValidQueue(q: Queue) {
    && HeaderOk(q.header)
    && q.allowedStatuses != {}
    && SprintsOk(q)
    && TasksOk(q)
    && (forall i :: 0 <= i < |q.tasks| ==> DependenciesOk(SprintOrders(q.sprints), ById(q.tasks), q.tasks[i]))
    && Acyclic(DependencyGraph(q))
  }

  lemma DistinctPrefix(tasks: seq<Task>, n: nat)
    requires n <= |tasks| && TasksDistinct(tasks)
    ensures TasksDistinct(tasks[..n])
  {
    forall i, j | 0 <= i < j < n
      ensures !SameSlot(tasks[..n][i], tasks[..n][j])
    {
      assert !SameSlot(tasks[i], tasks[j]);
    }
  }

  lemma {:induction false} ByIdKeys(tasks: seq<Task>, id: string)
    ensures id in ById(tasks) <==> exists i :: 0 <= i < |tasks| && tasks[i].id == id
  {
    if tasks != [] {
      var front := tasks[..|tasks| - 1];
      ByIdKeys(front, id);
      assert forall i :: 0 <= i < |front| ==> front[i] == tasks[i];
      if exists i :: 0 <= i < |tasks| && tasks[i].id == id {
        var i :| 0 <= i < |tasks| && tasks[i].id == id;
        assert i < |front| ==> front[i].id == id;
      }
    }
  }

  lemma {:induction false} ByIdAt(tasks: seq<Task>, i: nat)
    requires TasksDistinct(tasks) && i < |tasks|
    ensures tasks[i].id in ById(tasks) && ById(tasks)[tasks[i].id] == tasks[i]
  {
    if i < |tasks| - 1 {
      DistinctPrefix(tasks, |tasks| - 1);
      ByIdAt(tasks[..|tasks| - 1], i);
      assert !SameSlot(tasks[i], tasks[|tasks| - 1]);
    }
  }

  lemma ByIdLookup(tasks: seq<Task>)
    requires TasksDistinct(tasks)
    ensures forall i :: 0 <= i < |tasks| ==> tasks[i].id in ById(tasks) && ById(tasks)[tasks[i].id] == tasks[i]
    ensures forall id :: id in ById(tasks) ==> exists i :: 0 <= i < |tasks| && tasks[i].id == id
  {
    forall i | 0 <= i < |tasks|
      ensures tasks[i].id in ById(tasks) && ById(tasks)[tasks[i].id] == tasks[i]
    {
      ByIdAt(tasks, i);
    }
    forall id | id in ById(tasks)
      ensures exists i :: 0 <= i < |tasks| && tasks[i].id == id
    {
      ByIdKeys(tasks, id);
    }
  }

  lemma {:induction false} SprintOrdersKeys(sprints: seq<Sprint>)
    ensures forall id :: id in SprintOrders(sprints) <==> exists i :: 0 <= i < |sprints| && sprints[i].id == id
  {
    if sprints != [] {
      var front := sprints[..|sprints| - 1];
      SprintOrdersKeys(front);
      forall id
        ensures id in SprintOrders(sprints) <==> exists i :: 0 <= i < |sprints| && sprints[i].id == id
      {
        assert forall i :: 0 <= i < |front| ==> front[i] == sprints[i];
        assert sprints[|sprints| - 1].id == id || (forall i :: 0 <= i < |sprints| && sprints[i].id == id ==>
          i < |front|);
      }
    }
  }

  // ---------------------------------------------------------------------------
  // Validation, as loops

  method ValidateSprints(q: Queue) returns (ok: bool, orders: map<string, int>)
    ensures ok <==> SprintsOk(q)
    ensures ok ==> orders == SprintOrders(q.sprints)
  {
    orders := map[];
    var taken: set<int> := {};
    for i := 0 to |q.sprints|
      invariant SprintsDistinct(q.sprints[..i])
      invariant orders == SprintOrders(q.sprints[..i])
      invariant forall o :: o in taken <==> exists k :: 0 <= k < i && q.sprints[k].order == o
    {
      var s := q.sprints[i];
      SprintOrdersKeys(q.sprints[..i]);
      if s.id in orders || s.order in taken {
        assert !SprintsDistinct(q.sprints);
        return false, orders;
      }
      assert q.sprints[..i + 1][..i] == q.sprints[..i];
      orders := orders[s.id := s.order];
      taken := taken + {s.order};
    }
    assert q.sprints[..|q.sprints|] == q.sprints;
    ok := q.activeSprint in orders;
  }

  function Slots(tasks: seq<Task>): set<(string, int)> {
    set t | t in tasks :: (t.sprint, t.taskOrder)
  }

  predicate SlotTaken(tasks: seq<Task>, t: Task) {
    t.id in ById(tasks) || (t.sprint, t.taskOrder) in Slots(tasks)
  }

  lemma SlotTakenIff(tasks: seq<Task>, t: Task)
    ensures SlotTaken(tasks, t) <==> exists i :: 0 <= i < |tasks| && SameSlot(tasks[i], t)
  {
    ByIdKeys(tasks, t.id);
  }

  lemma DistinctSnoc(tasks: seq<Task>, t: Task)
    requires TasksDistinct(tasks)
    ensures TasksDistinct(tasks + [t]) <==> !SlotTaken(tasks, t)
  {
    var longer := tasks + [t];
    SlotTakenIff(tasks, t);
    if SlotTaken(tasks, t) {
      var k :| 0 <= k < |tasks| && SameSlot(tasks[k], t);
      assert SameSlot(longer[k], longer[|tasks|]);
    } else {
      forall i, j | 0 <= i < j < |longer|
        ensures !SameSlot(longer[i], longer[j])
      {
        assert longer[i] == tasks[i] && (j < |tasks| ==> longer[j] == tasks[j]);
      }
    }
  }

  lemma SnocTables(tasks: seq<Task>, t: Task)
    ensures Slots(tasks + [t]) == Slots(tasks) + {(t.sprint, t.taskOrder)}
    ensures ById(tasks + [t]) == ById(tasks)[t.id := t]
  {
    assert (tasks + [t])[..|tasks|] == tasks;
  }

  predicate TasksOkUpTo(q: Queue, n: nat)
    requires n <= |q.tasks|
  {
    && TasksDistinct(q.tasks[..n])
    && forall i :: 0 <= i < n ==> TaskOk(q.allowedStatuses, SprintOrders(q.sprints), q.tasks[i])
  }

  lemma TasksOkStep(q: Queue, n: nat)
    requires n < |q.tasks| && TasksOkUpTo(q, n)
    ensures TasksOkUpTo(q, n + 1) <==>
              !SlotTaken(q.tasks[..n], q.tasks[n]) && TaskOk(q.allowedStatuses, SprintOrders(q.sprints), q.tasks[n])
    ensures TasksOk(q) ==> TasksOkUpTo(q, n + 1)
  {
    DistinctSnoc(q.tasks[..n], q.tasks[n]);
    assert q.tasks[..n + 1] == q.tasks[..n] + [q.tasks[n]];
    if TasksOk(q) {
      DistinctPrefix(q.tasks, n + 1);
    }
  }

  method ValidateTasks(q: Queue, orders: map<string, int>) returns (ok: bool, byId: map<string, Task>)
    requires orders == SprintOrders(q.sprints)
    ensures ok <==> TasksOk(q)
    ensures ok ==> byId == ById(q.tasks)
  {
    byId := map[];
    var keys: set<(string, int)> := {};
    for i := 0 to |q.tasks|
      invariant TasksOkUpTo(q, i)
      invariant byId == ById(q.tasks[..i])
      invariant keys == Slots(q.tasks[..i])
    {
      var t := q.tasks[i];
      TasksOkStep(q, i);
      if t.id in byId || (t.sprint, t.taskOrder) in keys || !TaskOk(q.allowedStatuses, orders, t) {
        return false, byId;
      }
      SnocTables(q.tasks[..i], t);
      assert q.tasks[..i + 1] == q.tasks[..i] + [t];
      byId := byId[t.id := t];
      keys := keys + {(t.sprint, t.taskOrder)};
    }
    assert q.tasks[..|q.tasks|] == q.tasks;
    ok := true;
  }

  lemma DependencyGraphClosed(q: Queue)
    requires TasksOk(q)
    requires forall i :: 0 <= i < |q.tasks| ==> DependenciesOk(SprintOrders(q.sprints), ById(q.tasks), q.tasks[i])
    ensures Closed(DependencyGraph(q))
  {
    ByIdLookup(q.tasks);
    var g := DependencyGraph(q);
    forall n, d | n in g && d in g[n]
      ensures d in g
    {
      var i :| 0 <= i < |q.tasks| && q.tasks[i].id == n;
      var k :| 0 <= k < |q.tasks[i].dependencies| && q.tasks[i].dependencies[k] == d;
      assert DependencyOk(SprintOrders(q.sprints), ById(q.tasks), q.tasks[i], q.tasks[i].dependencies[k]);
    }
  }

  /** Validation accepts exactly the valid queues. */
  method ValidateQueue(q: Queue) returns (ok: bool)
    ensures ok <==> ValidQueue(q)
  {
    if !HeaderOk(q.header) || q.allowedStatuses == {} {
      return false;
    }
    var orders, byId;
    ok, orders := ValidateSprints(q);
    if !ok {
      return;
    }
    ok, byId := ValidateTasks(q, orders);
    if !ok {
      return;
    }
    for i := 0 to |q.tasks|
      invariant forall k :: 0 <= k < i ==> DependenciesOk(orders, byId, q.tasks[k])
    {
      if !DependenciesOk(orders, byId, q.tasks[i]) {
        return false;
      }
    }
    DependencyGraphClosed(q);
    ByIdLookup(q.tasks);
    var ids := seq(|q.tasks|, i requires 0 <= i < |q.tasks| => q.tasks[i].id);
    assert forall id :: id in ids <==> id in byId by {
      forall id
        ensures id in ids <==> id in byId
      {
        if id in byId {
          var i :| 0 <= i < |q.tasks| && q.tasks[i].id == id;
          assert ids[i] == id;
        }
      }
    }
    ok := ValidateAcyclic(DependenciesOf(byId), ids);
  }

  // ---------------------------------------------------------------------------
  // Selection

  predicate Unblocked(byId: map<string, Task>, t: Task) {
    forall k :: 0 <= k < |t.dependencies| ==>
      t.dependencies[k] in byId && byId[t.dependencies[k]].status == Completed
  }

  /** Has the given status, may be automated, and waits for nothing. */
  predicate Eligible(byId: map<string, Task>, status: Status, t: Task) {
    t.status == status && t.automationEligible && !t.approvalRequired && Unblocked(byId, t)
  }

  function Filter(byId: map<string, Task>, status: Status, tasks: seq<Task>): (r: seq<Task>)
    ensures forall t :: t in r <==> t in tasks && Eligible(byId, status, t)
  {
    if tasks == [] then []
    else
      var last := tasks[|tasks| - 1];
      assert tasks == tasks[..|tasks| - 1] + [last];
      Filter(byId, status, tasks[..|tasks| - 1]) + if Eligible(byId, status, last) then [last] else []
  }

  function Rank(orders: map<string, int>, t: Task): int {
    if t.sprint in orders then orders[t.sprint] else 0
  }

  /** Priority, then sprint order, then task order, then identifier. */
  predicate NotAfter(orders: map<string, int>, a: Task, b: Task) {
    if a.priority != b.priority then a.priority < b.priority
    else if Rank(orders, a) != Rank(orders, b) then Rank(orders, a) < Rank(orders, b)
    else if a.taskOrder != b.taskOrder then a.taskOrder < b.taskOrder
    else LexLeq(a.id, b.id)
  }

  function Precedence(q: Queue): (Task, Task) -> bool {
    var orders := SprintOrders(q.sprints);
    (a: Task, b: Task) => NotAfter(orders, a, b)
  }

  lemma PrecedenceIsOrder(q: Queue)
    ensures TotalPreorder(Precedence(q))
  {
    var leq := Precedence(q);
    forall a, b
      ensures leq(a, b) || leq(b, a)
    {
      LexTotal(a.id, b.id);
    }
    forall a, b, c | leq(a, b) && leq(b, c)
      ensures leq(a, c)
    {
      if LexLeq(a.id, b.id) && LexLeq(b.id, c.id) {
        LexTransitive(a.id, b.id, c.id);
      }
    }
  }

  function Candidates(q: Queue, status: Status): seq<Task> {
    SortBy(Precedence(q), Filter(ById(q.tasks), status, q.tasks))
  }

  datatype Selection = Selected(task: Task) | PromotionRequired(task: Task) | NoReadyTask(blocked: seq<string>)

  function BlockedIds(tasks: seq<Task>): seq<string> {
    if tasks == [] then []
    else (if tasks[0].status in {Blocked, HumanReview} then [tasks[0].id] else []) + BlockedIds(tasks[1..])
  }

  /** What a result without a task names: the blocked and human-review tasks, in queue order. */
  lemma {:induction false} BlockedIdsExact(tasks: seq<Task>)
    ensures forall id :: id in BlockedIds(tasks) <==>
              exists i :: 0 <= i < |tasks| && tasks[i].id == id && tasks[i].status in {Blocked, HumanReview}
    ensures |BlockedIds(tasks)| <= |tasks|
  {
    if tasks != [] {
      BlockedIdsExact(tasks[1..]);
      forall id
        ensures id in BlockedIds(tasks) <==>
                exists i :: 0 <= i < |tasks| && tasks[i].id == id && tasks[i].status in {Blocked, HumanReview}
      {
        if id in BlockedIds(tasks[1..]) {
          var i :| 0 <= i < |tasks[1..]| && tasks[1..][i].id == id && tasks[1..][i].status in {Blocked, HumanReview};
          assert tasks[i + 1] == tasks[1..][i];
        }
        if i :| 0 <= i < |tasks| && tasks[i].id == id && tasks[i].status in {Blocked, HumanReview} {
          assert i > 0 ==> tasks[1..][i - 1] == tasks[i];
        }
      }
    }
  }

  /** They are named in queue order. */
  lemma {:induction false} BlockedIdsInOrder(tasks: seq<Task>, i: nat, j: nat) returns (a: nat, b: nat)
    requires i < j < |tasks|
    requires tasks[i].status in {Blocked, HumanReview} && tasks[j].status in {Blocked, HumanReview}
    ensures a < b < |BlockedIds(tasks)| && BlockedIds(tasks)[a] == tasks[i].id && BlockedIds(tasks)[b] == tasks[j].id
  {
    var rest := tasks[1..];
    if i == 0 {
      BlockedIdsExact(rest);
      assert rest[j - 1].id in BlockedIds(rest);
      var k :| 0 <= k < |BlockedIds(rest)| && BlockedIds(rest)[k] == tasks[j].id;
      a, b := 0, k + 1;
    } else {
      a, b := BlockedIdsInOrder(rest, i - 1, j - 1);
      if tasks[0].status in {Blocked, HumanReview} {
        a, b := a + 1, b + 1;
      }
    }
  }

  function Select(q: Queue): Selection {
    if Candidates(q, Ready) != [] then Selected(Candidates(q, Ready)[0])
    else if Candidates(q, Planned) != [] then PromotionRequired(Candidates(q, Planned)[0])
    else NoReadyTask(BlockedIds(q.tasks))
  }

  // ---------------------------------------------------------------------------
  // The order in the queue's own terms

  lemma {:induction false} SprintOrderAt(sprints: seq<Sprint>, x: Sprint)
    requires SprintsDistinct(sprints) && x in sprints
    ensures x.id in SprintOrders(sprints) && SprintOrders(sprints)[x.id] == x.order
  {
    var front, last := sprints[..|sprints| - 1], sprints[|sprints| - 1];
    if x != last {
      assert sprints == front + [last];
      assert x in front;
      SprintOrderAt(front, x);
    }
  }

  /**
   `a` goes before `b`: by smaller priority number, then by the order of the sprints, then by task
   order. `x` and `y` are their sprints.
   */
  predicate GoesBefore(a: Task, x: Sprint, b: Task, y: Sprint) {
    || a.priority < b.priority
    || (a.priority == b.priority && x.order < y.order)
    || (a.priority == b.priority && x.order == y.order && a.taskOrder < b.taskOrder)
  }

  lemma OrderInQueueTerms(q: Queue, a: Task, x: Sprint, b: Task, y: Sprint)
    requires SprintsDistinct(q.sprints) && TasksDistinct(q.tasks)
    requires a in q.tasks && b in q.tasks && a != b && NotAfter(SprintOrders(q.sprints), a, b)
    requires x in q.sprints && y in q.sprints && x.id == a.sprint && y.id == b.sprint
    ensures GoesBefore(a, x, b, y)
  {
    SprintOrderAt(q.sprints, x);
    SprintOrderAt(q.sprints, y);
    var i :| 0 <= i < |q.tasks| && q.tasks[i] == a;
    var j :| 0 <= j < |q.tasks| && q.tasks[j] == b;
    assert !SameSlot(q.tasks[i], q.tasks[j]);
    var k :| 0 <= k < |q.sprints| && q.sprints[k] == x;
    var l :| 0 <= l < |q.sprints| && q.sprints[l] == y;
    assert k != l ==> x.order != y.order;
  }

  lemma {:induction false} FilterDistinct(byId: map<string, Task>, status: Status, tasks: seq<Task>)
    requires TasksDistinct(tasks)
    ensures Distinct(Filter(byId, status, tasks))
  {
    if tasks != [] {
      var front, last := tasks[..|tasks| - 1], tasks[|tasks| - 1];
      DistinctPrefix(tasks, |tasks| - 1);
      FilterDistinct(byId, status, front);
      forall t | t in Filter(byId, status, front)
        ensures t != last
      {
        var k :| 0 <= k < |front| && front[k] == t;
        assert !SameSlot(tasks[k], last);
      }
      var r := Filter(byId, status, front);
      assert forall i :: 0 <= i < |r| ==> r[i] in r;
    }
  }

  /** May run now: the status, open to automation, no approval, and every dependency a completed task. */
  predicate MayRun(q: Queue, status: Status, t: Task) {
    && t in q.tasks && t.status == status && t.automationEligible && !t.approvalRequired
    && forall d :: d in t.dependencies ==> exists u :: u in q.tasks && u.id == d && u.status == Completed
  }

  lemma MayRunIff(q: Queue, status: Status, t: Task)
    requires TasksDistinct(q.tasks) && t in q.tasks
    ensures MayRun(q, status, t) <==> Eligible(ById(q.tasks), status, t)
  {
    ByIdLookup(q.tasks);
    if MayRun(q, status, t) {
      forall k | 0 <= k < |t.dependencies|
        ensures t.dependencies[k] in ById(q.tasks) && ById(q.tasks)[t.dependencies[k]].status == Completed
      {
        assert t.dependencies[k] in t.dependencies;
        var u :| u in q.tasks && u.id == t.dependencies[k] && u.status == Completed;
        var i :| 0 <= i < |q.tasks| && q.tasks[i] == u;
      }
    }
    if Eligible(ById(q.tasks), status, t) {
      forall d | d in t.dependencies
        ensures exists u :: u in q.tasks && u.id == d && u.status == Completed
      {
        var k :| 0 <= k < |t.dependencies| && t.dependencies[k] == d;
        var i :| 0 <= i < |q.tasks| && q.tasks[i].id == d;
        assert q.tasks[i] in q.tasks;
      }
    }
  }

  /** `tasks` is exactly the tasks that may run, each once, in order of priority, sprint and task order. */
  ghost predicate Agenda(q: Queue, status: Status, tasks: seq<Task>) {
    && (forall t :: t in tasks <==> MayRun(q, status, t))
    && (forall i, j, x, y ::
          && 0 <= i < j < |tasks| && x in q.sprints && y in q.sprints
          && x.id == tasks[i].sprint && y.id == tasks[j].sprint
          ==> GoesBefore(tasks[i], x, tasks[j], y))
    && Distinct(tasks)
  }

  lemma CandidatesAreTheAgenda(q: Queue, status: Status)
    requires SprintsDistinct(q.sprints) && TasksDistinct(q.tasks)
    ensures Agenda(q, status, Candidates(q, status))
  {
    hide SprintOrders, ById, Filter, SprintsDistinct, TasksDistinct, SortBy, MayRun, Eligible, GoesBefore;
    var leq := Precedence(q);
    var chosen := Filter(ById(q.tasks), status, q.tasks);
    var c := Candidates(q, status);
    PrecedenceIsOrder(q);
    SortByIsSorted(leq, chosen);
    FilterDistinct(ById(q.tasks), status, q.tasks);
    SortByDistinct(leq, chosen);
    CandidatesCorrect(q, status);
    forall t
      ensures t in c <==> MayRun(q, status, t)
    {
      if t in q.tasks {
        MayRunIff(q, status, t);
      } else {
        MayRunIsTask(q, status, t);
      }
    }
    forall i, j, x, y | && 0 <= i < j < |c| && x in q.sprints && y in q.sprints
                        && x.id == c[i].sprint && y.id == c[j].sprint
      ensures GoesBefore(c[i], x, c[j], y)
    {
      assert c[i] in c && c[j] in c;
      assert leq(c[i], c[j]);
      OrderInQueueTerms(q, c[i], x, c[j], y);
    }
  }

  lemma MayRunIsTask(q: Queue, status: Status, t: Task)
    ensures MayRun(q, status, t) ==> t in q.tasks
  {
  }

  method ReadyTasks(q: Queue) returns (r: Result<seq<Task>, QueueError>)
    ensures r.Ok? <==> ValidQueue(q)
    ensures r.Ok? ==> r.value == Candidates(q, Ready)
    ensures r.Ok? ==> Agenda(q, Ready, r.value)
  {
    var valid := ValidateQueue(q);
    if !valid {
      return Err(QueueValidationError);
    }
    var byId := ById(q.tasks);
    var ready := [];
    for i := 0 to |q.tasks|
      invariant ready == Filter(byId, Ready, q.tasks[..i])
    {
      var t := q.tasks[i];
      assert q.tasks[..i + 1][..i] == q.tasks[..i];
      if t.status == Ready && !(!t.automationEligible || t.approvalRequired) && Unblocked(byId, t) {
        ready := ready + [t];
      }
    }
    assert q.tasks[..|q.tasks|] == q.tasks;
    CandidatesAreTheAgenda(q, Ready);
    r := Ok(SortBy(Precedence(q), ready));
  }

  lemma CandidatesCorrect(q: Queue, status: Status)
    ensures forall t :: t in Candidates(q, status) <==> t in q.tasks && Eligible(ById(q.tasks), status, t)
    ensures forall t :: t in Candidates(q, status) ==>
              NotAfter(SprintOrders(q.sprints), Candidates(q, status)[0], t)
  {
    var leq := Precedence(q);
    var chosen := Filter(ById(q.tasks), status, q.tasks);
    PrecedenceIsOrder(q);
    SortByIsSorted(leq, chosen);
    SortByMembers(leq, chosen);
    var c := Candidates(q, status);
    forall t | t in c
      ensures leq(c[0], t)
    {
      var i :| 0 <= i < |c| && c[i] == t;
      assert leq(c[0], c[0]) || i != 0;
    }
  }

  lemma SelectionIsEligible(q: Queue)
    ensures match Select(q)
            case Selected(t) => t in q.tasks && Eligible(ById(q.tasks), Ready, t)
            case PromotionRequired(t) =>
              && t in q.tasks && Eligible(ById(q.tasks), Planned, t)
              && (forall u :: u in q.tasks ==> !Eligible(ById(q.tasks), Ready, u))
            case NoReadyTask(_) =>
              forall u :: u in q.tasks ==> !Eligible(ById(q.tasks), Ready, u) && !Eligible(ById(q.tasks), Planned, u)
  {
    CandidatesCorrect(q, Ready);
    CandidatesCorrect(q, Planned);
    if Candidates(q, Ready) != [] {
      assert Candidates(q, Ready)[0] in Candidates(q, Ready);
    } else {
      assert forall u :: u in q.tasks && Eligible(ById(q.tasks), Ready, u) ==> u in Candidates(q, Ready);
      if Candidates(q, Planned) != [] {
        assert Candidates(q, Planned)[0] in Candidates(q, Planned);
      } else {
        assert forall u :: u in q.tasks && Eligible(ById(q.tasks), Planned, u) ==> u in Candidates(q, Planned);
      }
    }
  }

  /** The task may run and goes before every other that may. */
  ghost predicate Best(q: Queue, status: Status, t: Task) {
    && MayRun(q, status, t)
    && forall u, x, y ::
         && MayRun(q, status, u) && u != t && x in q.sprints && y in q.sprints
         && x.id == t.sprint && y.id == u.sprint
         ==> GoesBefore(t, x, u, y)
  }

  /** A ready task if one may run, else a planned one, else the blocked tasks; in each case the first of its kind. */
  ghost predicate Proper(q: Queue, s: Selection) {
    match s
    case Selected(t) => Best(q, Ready, t)
    case PromotionRequired(t) => Best(q, Planned, t) && forall u :: !MayRun(q, Ready, u)
    case NoReadyTask(ids) =>
      && (forall u :: !MayRun(q, Ready, u) && !MayRun(q, Planned, u))
      && forall id :: id in ids <==> exists u :: u in q.tasks && u.id == id && u.status in {Blocked, HumanReview}
  }

  lemma FirstIsBest(q: Queue, status: Status, tasks: seq<Task>)
    requires Agenda(q, status, tasks)
    ensures tasks != [] ==> Best(q, status, tasks[0])
    ensures tasks == [] ==> forall u :: !MayRun(q, status, u)
  {
    hide MayRun, GoesBefore;
    if tasks != [] {
      assert tasks[0] in tasks;
      forall u, x, y | && MayRun(q, status, u) && u != tasks[0] && x in q.sprints && y in q.sprints
                       && x.id == tasks[0].sprint && y.id == u.sprint
        ensures GoesBefore(tasks[0], x, u, y)
      {
        assert u in tasks;
        var j :| 0 <= j < |tasks| && tasks[j] == u;
      }
    } else {
      forall u
        ensures !MayRun(q, status, u)
      {
        assert u !in tasks;
      }
    }
  }

  /** Selection in the queue's own terms: the one task that goes before all others of its kind. */
  lemma SelectionIsBest(q: Queue)
    requires ValidQueue(q)
    ensures Proper(q, Select(q))
  {
    hide MayRun, GoesBefore, Candidates, BlockedIds;
    CandidatesAreTheAgenda(q, Ready);
    CandidatesAreTheAgenda(q, Planned);
    FirstIsBest(q, Ready, Candidates(q, Ready));
    FirstIsBest(q, Planned, Candidates(q, Planned));
    BlockedIdsExact(q.tasks);
    forall id
      ensures id in BlockedIds(q.tasks) <==>
                exists u :: u in q.tasks && u.id == id && u.status in {Blocked, HumanReview}
    {
      if i :| 0 <= i < |q.tasks| && q.tasks[i].id == id && q.tasks[i].status in {Blocked, HumanReview} {
        assert q.tasks[i] in q.tasks;
      }
    }
  }

  /** No two tasks can both be best. */
  lemma BestIsUnique(q: Queue, status: Status, t: Task, u: Task)
    requires ValidQueue(q) && Best(q, status, t) && Best(q, status, u)
    ensures t == u
  {
    if t != u {
      var i :| 0 <= i < |q.tasks| && q.tasks[i] == t;
      var j :| 0 <= j < |q.tasks| && q.tasks[j] == u;
      assert TaskOk(q.allowedStatuses, SprintOrders(q.sprints), q.tasks[i]);
      assert TaskOk(q.allowedStatuses, SprintOrders(q.sprints), q.tasks[j]);
      SprintOrdersKeys(q.sprints);
      var k :| 0 <= k < |q.sprints| && q.sprints[k].id == t.sprint;
      var l :| 0 <= l < |q.sprints| && q.sprints[l].id == u.sprint;
      assert GoesBefore(t, q.sprints[k], u, q.sprints[l]) && GoesBefore(u, q.sprints[l], t, q.sprints[k]);
    }
  }

  method SelectionPayload(q: Queue) returns (r: Result<Selection, QueueError>)
    ensures r.Ok? <==> ValidQueue(q)
    ensures r.Ok? ==> r.value == Select(q)
    ensures r.Ok? ==> Proper(q, r.value)
  {
    hide Proper, Agenda, Candidates, BlockedIds;
    var ready := ReadyTasks(q);
    if ready.Err? {
      return Err(ready.error);
    }
    SelectionIsBest(q);
    if ready.value != [] {
      return Ok(Selected(ready.value[0]));
    }
    var promotable := Candidates(q, Planned);
    if promotable != [] {
      return Ok(PromotionRequired(promotable[0]));
    }
    return Ok(NoReadyTask(BlockedIds(q.tasks)));
  }

  // ---------------------------------------------------------------------------
  // Progress

  /** Every incomplete task is open to automation. */
  predicate Automatable(q: Queue) {
    forall i :: 0 <= i < |q.tasks| ==>
      q.tasks[i].status == Completed ||
      (q.tasks[i].status in {Planned, Ready} && q.tasks[i].automationEligible && !q.tasks[i].approvalRequired)
  }

  predicate AllCompleted(q: Queue) {
    forall i :: 0 <= i < |q.tasks| ==> q.tasks[i].status == Completed
  }

  ghost function Incomplete(q: Queue): set<string> {
    set i | 0 <= i < |q.tasks| && q.tasks[i].status != Completed :: q.tasks[i].id
  }

  lemma GraphAt(q: Queue, i: nat)
    requires TasksDistinct(q.tasks) && i < |q.tasks|
    ensures q.tasks[i].id in DependencyGraph(q)
    ensures forall d :: d in DependencyGraph(q)[q.tasks[i].id] <==> d in q.tasks[i].dependencies
  {
    ByIdAt(q.tasks, i);
  }

  lemma CompleteDependencies(q: Queue, i: nat)
    requires ValidQueue(q) && i < |q.tasks| && forall d :: d in q.tasks[i].dependencies ==> d !in Incomplete(q)
    ensures Unblocked(ById(q.tasks), q.tasks[i])
  {
    hide ById, Acyclic, SprintOrders;
    var t := q.tasks[i];
    forall k | 0 <= k < |t.dependencies|
      ensures t.dependencies[k] in ById(q.tasks) && ById(q.tasks)[t.dependencies[k]].status == Completed
    {
      var d := t.dependencies[k];
      assert DependencyOk(SprintOrders(q.sprints), ById(q.tasks), t, d);
      ByIdKeys(q.tasks, d);
      var m :| 0 <= m < |q.tasks| && q.tasks[m].id == d;
      ByIdAt(q.tasks, m);
      assert d in t.dependencies && d !in Incomplete(q);
    }
  }

  /** Acyclicity leaves some incomplete task waiting for nothing. */
  lemma SomeTaskIsUnblocked(q: Queue) returns (i: nat)
    requires ValidQueue(q) && !AllCompleted(q)
    ensures i < |q.tasks| && q.tasks[i].status != Completed && Unblocked(ById(q.tasks), q.tasks[i])
  {
    hide ById, Acyclic, SprintOrders, DependencyGraph, DependenciesOk, TaskOk;
    var g, s := DependencyGraph(q), Incomplete(q);
    var j :| 0 <= j < |q.tasks| && q.tasks[j].status != Completed;
    assert q.tasks[j].id in s;
    forall id | id in s
      ensures id in g
    {
      var k :| 0 <= k < |q.tasks| && q.tasks[k].status != Completed && q.tasks[k].id == id;
      GraphAt(q, k);
    }
    SinkExists(g, s);
    var n :| n in s && g[n] !! s;
    i :| 0 <= i < |q.tasks| && q.tasks[i].status != Completed && q.tasks[i].id == n;
    GraphAt(q, i);
    CompleteDependencies(q, i);
  }

  /** An automatable queue reports `no_ready_task` exactly when all its work is done. */
  lemma NeverStuck(q: Queue)
    requires ValidQueue(q) && Automatable(q)
    ensures Select(q).NoReadyTask? <==> AllCompleted(q)
  {
    SelectionIsEligible(q);
    if !AllCompleted(q) {
      var i := SomeTaskIsUnblocked(q);
      assert q.tasks[i] in q.tasks;
    }
  }

  /** A reviewed queue update that changes one task's status. */
  function SetStatus(q: Queue, i: nat, status: Status): Queue
    requires i < |q.tasks|
  {
    var t := q.tasks[i];
    q.(tasks := q.tasks[i := t.(status := status, hasEvidence := t.hasEvidence || status == Completed)])
  }

  lemma {:induction false} ByIdUpdate(tasks: seq<Task>, i: nat, t: Task)
    requires i < |tasks| && TasksDistinct(tasks) && t.id == tasks[i].id
    ensures ById(tasks[i := t]) == ById(tasks)[t.id := t]
  {
    var front := tasks[..|tasks| - 1];
    var updated := tasks[i := t];
    if i == |tasks| - 1 {
      assert updated[..|tasks| - 1] == front;
    } else {
      assert updated[..|tasks| - 1] == front[i := t];
      ByIdUpdate(front, i, t);
    }
  }

  lemma SetStatusLookup(q: Queue, i: nat, status: Status)
    requires TasksDistinct(q.tasks) && i < |q.tasks|
    ensures var q' := SetStatus(q, i, status);
            && TasksDistinct(q'.tasks)
            && ById(q'.tasks) == ById(q.tasks)[q.tasks[i].id := q'.tasks[i]]
            && DependenciesOf(ById(q'.tasks)) == DependenciesOf(ById(q.tasks))
            && ById(q'.tasks).Keys == ById(q.tasks).Keys
            && forall id :: id in ById(q.tasks) ==> ById(q'.tasks)[id].sprint == ById(q.tasks)[id].sprint
  {
    hide ById;
    var q' := SetStatus(q, i, status);
    ByIdUpdate(q.tasks, i, q'.tasks[i]);
    ByIdAt(q.tasks, i);
    forall j, k | 0 <= j < k < |q'.tasks|
      ensures !SameSlot(q'.tasks[j], q'.tasks[k])
    {
      assert !SameSlot(q.tasks[j], q.tasks[k]);
    }
  }

  lemma DependenciesStayOk(orders: map<string, int>, byId: map<string, Task>, byId': map<string, Task>, t: Task,
      t': Task)
    requires DependenciesOk(orders, byId, t)
    requires byId'.Keys == byId.Keys && forall id :: id in byId ==> byId'[id].sprint == byId[id].sprint
    requires t'.id == t.id && t'.sprint == t.sprint && t'.dependencies == t.dependencies
    ensures DependenciesOk(orders, byId', t')
  {
    forall k | 0 <= k < |t'.dependencies|
      ensures DependencyOk(orders, byId', t', t'.dependencies[k])
    {
      assert DependencyOk(orders, byId, t, t.dependencies[k]);
    }
  }

  /** Updates to ready or completed keep the queue valid. */
  lemma SetStatusKeepsValid(q: Queue, i: nat, status: Status)
    requires ValidQueue(q) && i < |q.tasks|
    requires status in {Ready, Completed} && status in q.allowedStatuses && q.tasks[i].automationEligible
    ensures ValidQueue(SetStatus(q, i, status))
  {
    var q' := SetStatus(q, i, status);
    SetStatusLookup(q, i, status);
    var orders := SprintOrders(q.sprints);
    forall j | 0 <= j < |q'.tasks|
      ensures TaskOk(q.allowedStatuses, orders, q'.tasks[j])
      ensures DependenciesOk(orders, ById(q'.tasks), q'.tasks[j])
    {
      assert TaskOk(q.allowedStatuses, orders, q.tasks[j]);
      DependenciesStayOk(orders, ById(q.tasks), ById(q'.tasks), q.tasks[j], q'.tasks[j]);
    }
  }

  /** Two passes of work for a planned task, one for a ready one. */
  function Work(tasks: seq<Task>): nat {
    if tasks == [] then 0
    else
      var status := tasks[|tasks| - 1].status;
      Work(tasks[..|tasks| - 1]) + (if status == Planned then 2 else if status == Ready then 1 else 0)
  }

  lemma {:induction false} WorkUpdate(tasks: seq<Task>, i: nat, t: Task)
    requires i < |tasks|
    requires (tasks[i].status == Planned && t.status == Ready) || (tasks[i].status == Ready && t.status == Completed)
    ensures Work(tasks[i := t]) == Work(tasks) - 1
  {
    var updated := tasks[i := t];
    if i == |tasks| - 1 {
      assert updated[..|tasks| - 1] == tasks[..|tasks| - 1];
    } else {
      assert updated[..|tasks| - 1] == tasks[..|tasks| - 1][i := t];
      WorkUpdate(tasks[..|tasks| - 1], i, t);
    }
  }

  /** Queues on which automation can finish all the work. */
  ghost predicate Driven(q: Queue) {
    ValidQueue(q) && Automatable(q) && {Ready, Completed} <= q.allowedStatuses
  }

  ghost function IndexOf(q: Queue, t: Task): (i: nat)
    requires t in q.tasks
    ensures i < |q.tasks| && q.tasks[i] == t
  {
    var i :| 0 <= i < |q.tasks| && q.tasks[i] == t;
    i
  }

  /** Where the pass acts and what it sets there. */
  ghost function Target(q: Queue): (r: (nat, Status))
    requires Driven(q) && !Select(q).NoReadyTask?
    ensures r.0 < |q.tasks| && q.tasks[r.0] == Select(q).task && q.tasks[r.0].automationEligible
    ensures (q.tasks[r.0].status, r.1) in {(Ready, Completed), (Planned, Ready)}
    ensures r.1 == Completed <==> Select(q).Selected?
    ensures Unblocked(ById(q.tasks), q.tasks[r.0])
  {
    SelectionIsEligible(q);
    (IndexOf(q, Select(q).task), if Select(q).Selected? then Completed else Ready)
  }

  lemma SetStatusKeepsDriven(q: Queue, i: nat, status: Status)
    requires Driven(q) && i < |q.tasks| && q.tasks[i].automationEligible
    requires (q.tasks[i].status, status) in {(Ready, Completed), (Planned, Ready)}
    ensures Driven(SetStatus(q, i, status))
    ensures Work(SetStatus(q, i, status).tasks) == Work(q.tasks) - 1
  {
    SetStatusKeepsValid(q, i, status);
    WorkUpdate(q.tasks, i, SetStatus(q, i, status).tasks[i]);
  }

  /** The queue after one pass: the selected task is completed, or the promotable one made ready. */
  ghost function Pass(q: Queue): (q': Queue)
    requires Driven(q) && !Select(q).NoReadyTask?
    ensures Driven(q') && Work(q'.tasks) == Work(q.tasks) - 1
  {
    var (i, status) := Target(q);
    SetStatusKeepsDriven(q, i, status);
    SetStatus(q, i, status)
  }

  /** The identifiers in the order in which repeated passes complete them. */
  ghost function CompletionOrder(q: Queue): seq<string>
    requires Driven(q)
    decreases Work(q.tasks)
  {
    match Select(q)
    case NoReadyTask(_) => []
    case Selected(t) => [t.id] + CompletionOrder(Pass(q))
    case PromotionRequired(_) => CompletionOrder(Pass(q))
  }

  lemma SetStatusIncomplete(q: Queue, i: nat, status: Status)
    requires TasksDistinct(q.tasks) && i < |q.tasks| && q.tasks[i].status != Completed
    ensures Incomplete(SetStatus(q, i, status)) ==
            if status == Completed then Incomplete(q) - {q.tasks[i].id} else Incomplete(q)
  {
    var q' := SetStatus(q, i, status);
    forall id
      ensures id in Incomplete(q') <==>
              id in (if status == Completed then Incomplete(q) - {q.tasks[i].id} else Incomplete(q))
    {
      if id in Incomplete(q') {
        var j :| 0 <= j < |q'.tasks| && q'.tasks[j].status != Completed && q'.tasks[j].id == id;
        assert q.tasks[j].id == id;
        assert j != i ==> !SameSlot(q.tasks[if j < i then j else i], q.tasks[if j < i then i else j]);
      }
      if id in Incomplete(q) {
        var j :| 0 <= j < |q.tasks| && q.tasks[j].status != Completed && q.tasks[j].id == id;
        assert q'.tasks[j].id == id;
      }
    }
  }

  lemma PassIncomplete(q: Queue)
    requires Driven(q) && !Select(q).NoReadyTask?
    ensures var t := Select(q).task;
            && t.id in Incomplete(q)
            && t.id in ById(q.tasks) && ById(q.tasks)[t.id] == t
            && (forall d :: d in t.dependencies ==> d !in Incomplete(q))
            && Incomplete(Pass(q)) == (if Select(q).Selected? then Incomplete(q) - {t.id} else Incomplete(q))
            && DependenciesOf(ById(Pass(q).tasks)) == DependenciesOf(ById(q.tasks))
  {
    hide ById, Select, Acyclic;
    var (i, status) := Target(q);
    var t := q.tasks[i];
    ByIdLookup(q.tasks);
    SetStatusLookup(q, i, status);
    SetStatusIncomplete(q, i, status);
    forall d | d in t.dependencies
      ensures d !in Incomplete(q)
    {
      var k :| 0 <= k < |t.dependencies| && t.dependencies[k] == d;
      assert ById(q.tasks)[d].status == Completed;
    }
  }

  /** Every dependency of a completed task was complete before it. */
  ghost predicate RespectsDependencies(deps: Dependencies, incomplete: set<string>, order: seq<string>) {
    forall k, d :: 0 <= k < |order| && order[k] in deps && d in deps[order[k]] ==> d !in incomplete || d in order[..k]
  }

  lemma RespectsCons(deps: Dependencies, incomplete: set<string>, id: string, rest: seq<string>)
    requires id in deps && forall d :: d in deps[id] ==> d !in incomplete
    requires RespectsDependencies(deps, incomplete - {id}, rest)
    ensures RespectsDependencies(deps, incomplete, [id] + rest)
  {
    var order := [id] + rest;
    forall k, d | 0 <= k < |order| && order[k] in deps && d in deps[order[k]]
      ensures d !in incomplete || d in order[..k]
    {
      if k > 0 {
        assert order[k] == rest[k - 1] && order[..k] == [id] + rest[..k - 1];
        assert d !in incomplete - {id} || d in rest[..k - 1];
        assert id == order[..k][0];
      }
    }
  }

  /**
   Repeated passes finish: they complete each incomplete task exactly once, after exactly as
   many completions as there were incomplete tasks, and never before its dependencies.
   */
  lemma {:induction false} PassesCompleteEverything(q: Queue)
    requires Driven(q)
    ensures var order := CompletionOrder(q);
            && Distinct(order)
            && (forall id :: id in order <==> id in Incomplete(q))
            && |order| == |Incomplete(q)|
            && RespectsDependencies(DependenciesOf(ById(q.tasks)), Incomplete(q), order)
    decreases Work(q.tasks)
  {
    hide ValidQueue, Select, Pass, ById, Automatable;
    NeverStuck(q);
    if Select(q).NoReadyTask? {
      assert Incomplete(q) == {};
    } else {
      PassIncomplete(q);
      PassesCompleteEverything(Pass(q));
      if Select(q).Selected? {
        var t := Select(q).task;
        RespectsCons(DependenciesOf(ById(q.tasks)), Incomplete(q), t.id, CompletionOrder(Pass(q)));
      }
    }
  }
}
