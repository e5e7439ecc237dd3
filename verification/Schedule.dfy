/** Partially ordered work: launched items, task graphs, and the orders in which they may run. */
module Schedule {
  import opened Tasks

  /** A launched task. It may start once none of the items it waits for is pending. */
  datatype Item = Item(id: nat, stream: nat, task: Task, waits: set<nat>)

  function TasksOf(items: seq<Item>): (ts: seq<Task>)
    ensures |ts| == |items|
  {
    seq(|items|, i requires 0 <= i < |items| => items[i].task)
  }

  ghost predicate Distinct(items: seq<Item>) {
    forall i, j | 0 <= i < j < |items| :: items[i].id != items[j].id
  }

  /** Nothing waits for itself or for something later. */
  ghost predicate Ordered(items: seq<Item>) {
    forall i, j | 0 <= i <= j < |items| :: items[j].id !in items[i].waits
  }

  /** Of two conflicting items the later one waits for the earlier one. */
  ghost predicate RaceFree(items: seq<Item>) {
    forall i, j | 0 <= i < j < |items| :: Independent(items[i].task, items[j].task) || items[i].id in items[j].waits
  }

  predicate Enabled(items: seq<Item>, i: nat)
    requires i < |items|
  {
    forall j | 0 <= j < |items| :: items[j].id !in items[i].waits
  }

  /** The tasks may be launched on the stream: whatever is pending elsewhere is independent of them. */
  ghost predicate Clear(pending: seq<Item>, stream: nat, ts: seq<Task>) {
    forall x, t | x in pending && t in ts :: x.stream == stream || Independent(x.task, t)
  }

  /** Whatever is pending now was pending before, or is one of the tasks launched on the stream. */
  ghost predicate Grown(before: seq<Item>, after: seq<Item>, stream: nat, ts: seq<Task>) {
    forall x | x in after :: x in before || (x.stream == stream && x.task in ts)
  }

  lemma StillClear(before: seq<Item>, after: seq<Item>, stream: nat, ts: seq<Task>)
    requires Clear(before, stream, ts) && Grown(before, after, stream, ts)
    ensures Clear(after, stream, ts)
  {
    hide Independent;
  }

  lemma FirstEnabled(items: seq<Item>)
    requires Ordered(items) && items != []
    ensures Enabled(items, 0)
  {}

  /** Two items that may run at the same time never touch the same data. */
  lemma EnabledIndependent(items: seq<Item>, i: nat, j: nat)
    requires RaceFree(items) && i < |items| && j < |items| && i != j
    requires Enabled(items, i) && Enabled(items, j)
    ensures Independent(items[i].task, items[j].task)
  {
    hide Independent;
    IndependentSymmetric(items[i].task, items[j].task);
  }

  lemma TasksWithout(items: seq<Item>, i: nat)
    requires i < |items|
    ensures TasksOf(Without(items, i)) == Without(TasksOf(items), i)
  {}

  /** Running an enabled item first does not change the outcome. */
  lemma RunEnabled(m: Memory, items: seq<Item>, i: nat)
    requires RaceFree(items) && i < |items| && Enabled(items, i)
    ensures Run(m, TasksOf(items)) == Run(Exec(items[i].task, m), TasksOf(Without(items, i)))
  {
    hide Run, Exec, Independent;
    forall j | 0 <= j < i ensures Independent(items[i].task, items[j].task) {
      IndependentSymmetric(items[i].task, items[j].task);
    }
    RunFirst(m, TasksOf(items), i);
    TasksWithout(items, i);
  }

  lemma WithoutKeeps(items: seq<Item>, i: nat)
    requires i < |items|
    ensures Distinct(items) ==> Distinct(Without(items, i))
    ensures Ordered(items) ==> Ordered(Without(items, i))
    ensures RaceFree(items) ==> RaceFree(Without(items, i))
    ensures forall x :: x in Without(items, i) ==> x in items
  {
    hide Independent;
    var r := Without(items, i);
    assert forall k | 0 <= k < |r| :: r[k] == items[if k < i then k else k + 1];
  }

  /** The ids and the waits are all below a bound. */
  ghost predicate Below(items: seq<Item>, bound: nat) {
    forall x | x in items :: x.id < bound && forall w | w in x.waits :: w < bound
  }

  /** Race-free work launched behind race-free work. */
  lemma Join(items: seq<Item>, more: seq<Item>, base: nat, bound: nat)
    requires Ordered(items) && Distinct(items) && RaceFree(items) && Below(items, base)
    requires Ordered(more) && Distinct(more) && RaceFree(more) && Below(more, bound) && base <= bound
    requires forall y | y in more :: base <= y.id
    requires forall x, y | x in items && y in more :: x.id in y.waits || Independent(x.task, y.task)
    ensures Ordered(items + more) && Distinct(items + more) && RaceFree(items + more) && Below(items + more, bound)
    ensures TasksOf(items + more) == TasksOf(items) + TasksOf(more)
  {
    hide Independent;
  }

  lemma WithoutHolds(items: seq<Item>, i: nat, x: Item)
    requires i < |items| && x in items && x != items[i]
    ensures x in Without(items, i)
  {
    var k :| 0 <= k < |items| && items[k] == x;
    assert Without(items, i)[if k < i then k else k - 1] == x;
  }

  /**
   * Schedule independence: every order of race-free work in which nothing runs before what it
   * waits for leaves the memory that the launch order leaves.
   */
  lemma {:induction false} AnySchedule(m: Memory, items: seq<Item>, order: seq<Item>)
    requires RaceFree(items) && Distinct(items)
    requires |order| == |items| && Distinct(order) && Ordered(order)
    requires forall x | x in order :: x in items
    ensures Run(m, TasksOf(order)) == Run(m, TasksOf(items))
    decreases |order|
  {
    hide Run, Exec, Independent, RaceFree, TasksOf;
    if order != [] {
      var x := order[0];
      assert x in items;
      var i :| 0 <= i < |items| && items[i] == x;
      assert Without(order, 0) == order[1..];
      WithoutKeeps(order, 0);
      WithoutKeeps(items, i);
      forall y | y in order[1..] ensures y in Without(items, i) {
        WithoutHolds(items, i, y);
      }
      AllWaitsGone(items, order, i);
      AnySchedule(Exec(x.task, m), Without(items, i), order[1..]);
      RunEnabled(m, items, i);
      HeadFirst(m, order);
    } else {
      assert order == items;
    }
  }

  /** The first item of an order that covers all items is enabled. */
  lemma AllWaitsGone(items: seq<Item>, order: seq<Item>, i: nat)
    requires |order| == |items| && Distinct(order) && Ordered(order) && Distinct(items)
    requires forall x | x in order :: x in items
    requires i < |items| && items[i] == order[0]
    ensures Enabled(items, i)
  {
    forall j | 0 <= j < |items| ensures items[j].id !in items[i].waits {
      Covers(items, order, items[j]);
    }
  }

  lemma {:induction false} Covers(items: seq<Item>, order: seq<Item>, x: Item)
    requires |order| == |items| && Distinct(order) && Distinct(items)
    requires forall y | y in order :: y in items
    requires x in items
    ensures x in order
  {
    if order != [] && order[0] != x {
      assert order[0] in items;
      var i :| 0 <= i < |items| && items[i] == order[0];
      assert Without(order, 0) == order[1..];
      WithoutKeeps(order, 0);
      WithoutKeeps(items, i);
      forall y | y in order[1..] ensures y in Without(items, i) {
        WithoutHolds(items, i, y);
      }
      WithoutHolds(items, i, x);
      Covers(Without(items, i), order[1..], x);
    }
  }

  lemma HeadFirst(m: Memory, order: seq<Item>)
    requires order != []
    ensures Run(m, TasksOf(order)) == Run(Exec(order[0].task, m), TasksOf(order[1..]))
  {
    hide Run, Exec;
    RunFirst(m, TasksOf(order), 0);
    assert Without(TasksOf(order), 0) == TasksOf(order[1..]);
  }

  // ------------------------------------------------------------------------
  // Task graphs.
  // ------------------------------------------------------------------------

  datatype Node<T> = Node(task: T, preds: set<nat>)

  /** The nodes of a graph in the order of their creation. */
  type Nodes<T> = seq<Node<T>>

  type Graph = Nodes<Task>

  /** Every predecessor exists when a node is created. */
  ghost predicate WellFormed<T>(g: Nodes<T>) {
    forall v | 0 <= v < |g| :: forall u | u in g[v].preds :: u < v
  }

  /** There is a path from u to v. */
  predicate Reach<T>(g: Nodes<T>, u: nat, v: nat)
    decreases v
  {
    v < |g| && exists w | w in g[v].preds && w < v :: w == u || Reach(g, u, w)
  }

  /** Every two conflicting nodes are ordered by a path. */
  ghost predicate ConflictOrdered(g: Graph) {
    forall u, v | 0 <= u < v < |g| :: Independent(g[u].task, g[v].task) || Reach(g, u, v)
  }

  /** Creation order. */
  function Created(g: Graph): (ts: seq<Task>)
    ensures |ts| == |g|
  {
    seq(|g|, v requires 0 <= v < |g| => g[v].task)
  }

  /** The order lists every node once, and no node before one of its predecessors. */
  ghost predicate Topological<T>(g: Nodes<T>, order: seq<nat>) {
    && |order| == |g|
    && (forall i | 0 <= i < |order| :: order[i] < |g|)
    && (forall i, j | 0 <= i < j < |order| :: order[i] != order[j])
    && (forall i, u | 0 <= i < |order| && u in g[order[i]].preds :: u in order[..i])
  }

  function TasksAt(g: Graph, order: seq<nat>): (ts: seq<Task>)
    requires forall i | 0 <= i < |order| :: order[i] < |g|
    ensures |ts| == |order|
  {
    seq(|order|, i requires 0 <= i < |order| => g[order[i]].task)
  }

  /** Item u stands for a node that reaches v. */
  predicate Precedes(g: Graph, base: nat, u: nat, v: nat) {
    base <= u && Reach(g, u - base, v)
  }

  /** The items of all nodes from which v is reached, when node 0 is the item base. */
  function Ancestors(g: Graph, base: nat, v: nat): set<nat> {
    set u: nat | u < base + v && Precedes(g, base, u, v)
  }

  /** A submission as items, numbered from base, behind the items already on the stream. */
  function Submitted(g: Graph, base: nat, stream: nat, behind: set<nat>, order: seq<nat>): (items: seq<Item>)
    requires forall i | 0 <= i < |order| :: order[i] < |g|
    ensures |items| == |order|
  {
    seq(|order|, i requires 0 <= i < |order| =>
      Item(base + order[i], stream, g[order[i]].task, behind + Ancestors(g, base, order[i])))
  }

  function Identity(n: nat): (order: seq<nat>)
    ensures |order| == n && forall i | 0 <= i < n :: order[i] == i
  {
    seq(n, i requires 0 <= i => i)
  }

  lemma ReachBefore<T>(g: Nodes<T>, u: nat, v: nat)
    requires Reach(g, u, v)
    ensures u < v < |g|
    decreases v
  {
    var w :| w in g[v].preds && w < v && (w == u || Reach(g, u, w));
    if w != u {
      ReachBefore(g, u, w);
    }
  }

  lemma ReachVia<T>(g: Nodes<T>, u: nat, w: nat, v: nat)
    requires v < |g| && w in g[v].preds && w < v && (w == u || Reach(g, u, w))
    ensures Reach(g, u, v)
  {}

  /** What reaches a node comes before it in every topological order. */
  lemma {:induction false} ReachEarlier(g: Graph, order: seq<nat>, u: nat, i: nat)
    requires Topological(g, order) && i < |order| && Reach(g, u, order[i])
    ensures u in order[..i]
    decreases i
  {
    var w :| w in g[order[i]].preds && w < order[i] && (w == u || Reach(g, u, w));
    if w != u {
      var j :| 0 <= j < i && order[j] == w;
      ReachEarlier(g, order, u, j);
    }
  }

  /** In a submission, an item waits for exactly the items of the nodes that reach its own. */
  lemma SubmittedWaits(g: Graph, base: nat, stream: nat, behind: set<nat>, u: nat, v: nat)
    requires u < |g| && v < |g| && forall b | b in behind :: b < base
    ensures var items := Submitted(g, base, stream, behind, Identity(|g|));
            items[u].id in items[v].waits <==> Reach(g, u, v)
  {
    hide Reach;
    if Reach(g, u, v) {
      ReachBefore(g, u, v);
      assert Precedes(g, base, base + u, v);
    }
  }

  lemma SubmittedMembers(g: Graph, base: nat, stream: nat, behind: set<nat>)
    requires forall b | b in behind :: b < base
    ensures var items := Submitted(g, base, stream, behind, Identity(|g|));
            && Below(items, base + |g|) && TasksOf(items) == Created(g)
            && (forall x | x in items ::
                  base <= x.id && x.stream == stream && behind <= x.waits && x.task in Created(g))
  {
    hide Reach;
    var items := Submitted(g, base, stream, behind, Identity(|g|));
    assert forall v | 0 <= v < |g| :: items[v].task == Created(g)[v];
  }

  /** A submission is race-free work behind what it waits for. */
  lemma SubmittedItems(g: Graph, base: nat, stream: nat, behind: set<nat>)
    requires ConflictOrdered(g) && forall b | b in behind :: b < base
    ensures var items := Submitted(g, base, stream, behind, Identity(|g|));
            && Ordered(items) && Distinct(items) && RaceFree(items) && Below(items, base + |g|)
            && (forall x | x in items ::
                  base <= x.id && x.stream == stream && behind <= x.waits && x.task in Created(g))
            && TasksOf(items) == Created(g)
  {
    hide Independent, Reach, Ancestors, Below, TasksOf, Created;
    var items := Submitted(g, base, stream, behind, Identity(|g|));
    SubmittedMembers(g, base, stream, behind);
    forall i, j | 0 <= i <= j < |items| ensures items[j].id !in items[i].waits {
      SubmittedWaits(g, base, stream, behind, j, i);
      if Reach(g, j, i) {
        ReachBefore(g, j, i);
      }
    }
    forall i, j | 0 <= i < j < |items|
      ensures Independent(items[i].task, items[j].task) || items[i].id in items[j].waits
    {
      SubmittedWaits(g, base, stream, behind, i, j);
    }
  }

  lemma OrderedItems(g: Graph, order: seq<nat>)
    requires Topological(g, order)
    ensures Ordered(Submitted(g, 0, 0, {}, order)) && Distinct(Submitted(g, 0, 0, {}, order))
  {
    hide Independent, Reach;
    var run := Submitted(g, 0, 0, {}, order);
    forall i, j | 0 <= i <= j < |run| ensures run[j].id !in run[i].waits {
      if Reach(g, order[j], order[i]) {
        ReachEarlier(g, order, order[j], i);
      }
    }
  }

  /**
   * Every topological order of a graph whose conflicting nodes are all ordered
   * leaves the memory that creation order leaves.
   */
  lemma AnyTopologicalOrder(m: Memory, g: Graph, order: seq<nat>)
    requires ConflictOrdered(g) && Topological(g, order)
    ensures Run(m, TasksAt(g, order)) == Run(m, Created(g))
  {
    hide Run, Independent, Reach, RaceFree, Ordered, Distinct;
    var items, run := Submitted(g, 0, 0, {}, Identity(|g|)), Submitted(g, 0, 0, {}, order);
    forall x | x in run ensures x in items {
      var i :| 0 <= i < |run| && run[i] == x;
      assert items[order[i]] == x;
    }
    OrderedItems(g, order);
    SubmittedItems(g, 0, 0, {});
    AnySchedule(m, items, run);
    assert TasksOf(run) == TasksAt(g, order);
  }
}
