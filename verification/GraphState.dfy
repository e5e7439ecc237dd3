/** The state of a graph context: how a chain adds nodes to it, and what a submission runs. */
module GraphState {
  import opened Vectors
  import opened Wrappers
  import opened Schedule
  import opened SenderGraph

  /** What the graph and the execution space are asked to do. */
  datatype Event = Instantiated | Submitted | Fenced

  /** What the receiver at the end of a chain is told. */
  datatype Signal = Value | Error

  /** What the operation state of one work keeps of its construction. */
  datatype Op = Op(node: Option<nat>, error: bool)

  // ------------------------------------------------------------------------
  // The nodes of chains.
  // ------------------------------------------------------------------------

  /** A chain of then and bulk, from the first work to the last. */
  function ChainOf(chain: seq<nat>): (e: Sender) {
    if chain == [] then Start else Work(ChainOf(chain[..|chain| - 1]), chain[|chain| - 1])
  }

  /** The graph after a chain is connected to it. */
  function Extended(g: WorkGraph, chain: seq<nat>): WorkGraph {
    Connect(ChainOf(chain), None, g).graph
  }

  /** The predecessor of the node for work i of a chain behind n nodes. */
  function Behind(n: nat, i: nat): nat {
    if i == 0 then ROOT else n + i - 1
  }

  lemma {:induction false} ExtendedNodes(g: WorkGraph, chain: seq<nat>)
    ensures var e := Extended(g, chain);
            && |e| == |g| + |chain| && e[..|g|] == g
            && forall i | 0 <= i < |chain| :: e[|g| + i] == Node(Some(chain[i]), {Behind(|g|, i)})
    ensures Connect(ChainOf(chain), None, g).node == if chain == [] then None else Some(|g| + |chain| - 1)
  {
    if chain != [] {
      ExtendedNodes(g, chain[..|chain| - 1]);
    }
  }

  lemma ExtendedStep(g: WorkGraph, chain: seq<nat>, i: nat)
    requires i < |chain|
    ensures Extended(g, []) == g
    ensures Extended(g, chain[..i + 1]) == Extended(g, chain[..i]) + [Node(Some(chain[i]), {Behind(|g|, i)})]
    ensures |Extended(g, chain[..i])| == |g| + i
  {
    ExtendedNodes(g, chain[..i]);
    ExtendedNodes(g, chain[..i + 1]);
    assert chain[..i + 1][..i] == chain[..i];
  }

  lemma ExtendedWellFormed(g: WorkGraph, chain: seq<nat>)
    requires WellFormed(g) && |g| >= 1
    ensures WellFormed(Extended(g, chain))
  {
    hide Extended;
    ExtendedNodes(g, chain);
    var e := Extended(g, chain);
    forall v, u | 0 <= v < |e| && u in e[v].preds ensures u < v {
      if v < |g| {
        assert e[v] == g[v];
      } else {
        assert e[|g| + (v - |g|)].preds == {Behind(|g|, v - |g|)};
      }
    }
  }

  /** The graph of a context to which the given chains were connected. */
  function GraphOf(chains: seq<seq<nat>>): (g: WorkGraph)
    ensures |g| >= 1 && WellFormed(g)
  {
    if chains == [] then Fresh()
    else
      var g := GraphOf(chains[..|chains| - 1]);
      ExtendedWellFormed(g, chains[|chains| - 1]);
      ExtendedNodes(g, chains[|chains| - 1]);
      Extended(g, chains[|chains| - 1])
  }

  // ------------------------------------------------------------------------
  // What one submission runs.
  // ------------------------------------------------------------------------

  function NodeWork(g: WorkGraph, v: nat): seq<nat> {
    if v < |g| && g[v].task.Some? then [g[v].task.value] else []
  }

  lemma NodeWorkIs(g: WorkGraph, v: nat)
    requires v < |g|
    ensures NodeWork(g, v) == if g[v].task.Some? then [g[v].task.value] else []
  {}

  /** The work of the nodes in the given order. */
  function WorkAt(g: WorkGraph, order: seq<nat>): seq<nat> {
    if order == [] then [] else WorkAt(g, order[..|order| - 1]) + NodeWork(g, order[|order| - 1])
  }

  /** What submissions run, each in its own order. */
  function RunsOf(g: WorkGraph, orders: seq<seq<nat>>): seq<nat> {
    if orders == [] then [] else RunsOf(g, orders[..|orders| - 1]) + WorkAt(g, orders[|orders| - 1])
  }

  /** Among nodes of a well-formed graph some one has all its predecessors done. */
  lemma NextNode(g: WorkGraph, done: set<nat>)
    requires WellFormed(g) && exists v :: 0 <= v < |g| && v !in done
    ensures exists v :: 0 <= v < |g| && v !in done && g[v].preds <= done
  {
    var v :| 0 <= v < |g| && v !in done;
    while !(g[v].preds <= done)
      invariant 0 <= v < |g| && v !in done
      decreases v
    {
      var u :| u in g[v].preds && u !in done;
      v := u;
    }
  }

  /** A run in progress: what is done, in the order in which it was done. */
  ghost predicate Partial(g: WorkGraph, done: set<nat>, order: seq<nat>) {
    && done <= Range(|g|) && (forall v :: v in done <==> v in order)
    && (forall i | 0 <= i < |order| :: order[i] < |g|)
    && (forall i, j | 0 <= i < j < |order| :: order[i] != order[j])
    && forall i, u | 0 <= i < |order| && u in g[order[i]].preds :: u in order[..i]
  }

  lemma PartialStep(g: WorkGraph, done: set<nat>, order: seq<nat>, v: nat)
    requires Partial(g, done, order) && v < |g| && v !in done && g[v].preds <= done
    ensures Partial(g, done + {v}, order + [v])
  {
    var next := order + [v];
    forall i, u | 0 <= i < |next| && u in g[next[i]].preds ensures u in next[..i] {
      if i < |order| {
        assert u in order[..i];
        assert next[..i] == order[..i];
      } else {
        assert next[..i] == order;
      }
    }
  }

  lemma PartialFewer(g: WorkGraph, done: set<nat>, v: nat)
    requires v < |g| && v !in done
    ensures Range(|g|) - (done + {v}) < Range(|g|) - done
  {
    assert v in Range(|g|) - done;
  }

  lemma WorkMore(g: WorkGraph, order: seq<nat>, v: nat)
    ensures WorkAt(g, order + [v]) == WorkAt(g, order) + NodeWork(g, v)
  {
    hide NodeWork;
    assert (order + [v])[..|order|] == order;
  }

  lemma PartialEnd(g: WorkGraph, done: set<nat>, order: seq<nat>)
    requires Partial(g, done, order) && forall v | 0 <= v < |g| :: v in done
    ensures Topological(g, order)
  {
    assert done == Range(|g|);
    SetSize(order, done);
  }

  lemma NoWork(g: WorkGraph)
    ensures Partial(g, {}, []) && WorkAt(g, []) == []
  {}

  /** Some node that may run now. */
  method Ready(g: WorkGraph, done: set<nat>) returns (v: nat)
    requires WellFormed(g) && exists v :: 0 <= v < |g| && v !in done
    ensures v < |g| && v !in done && g[v].preds <= done
  {
    NextNode(g, done);
    v :| 0 <= v < |g| && v !in done && g[v].preds <= done;
  }

  lemma {:induction false} Pigeon(order: seq<nat>, n: nat)
    requires forall i, j | 0 <= i < j < |order| :: order[i] != order[j]
    requires forall i | 0 <= i < |order| :: order[i] < n
    ensures |order| <= n
    ensures |order| == n ==> forall v: nat | v < n :: v in order
  {
    var s := set v | v in order;
    SetSize(order, s);
    assert s <= Range(n);
    Subset(s, Range(n));
    if |order| == n {
      forall v: nat | v < n ensures v in order {
        assert v in Range(n);
      }
    }
  }

  lemma {:induction false} SetSize(order: seq<nat>, s: set<nat>)
    requires forall i, j | 0 <= i < j < |order| :: order[i] != order[j]
    requires forall v :: v in s <==> v in order
    ensures |s| == |order|
  {
    if order == [] {
      assert s == {};
    } else {
      var init, last := order[..|order| - 1], order[|order| - 1];
      assert last in order && last !in init;
      forall v ensures v in s - {last} <==> v in init {
        assert order == init + [last];
      }
      SetSize(init, s - {last});
    }
  }

  lemma Subset(a: set<nat>, b: set<nat>)
    requires a <= b
    ensures |a| <= |b| && (|a| == |b| ==> a == b)
  {
    assert b == a + (b - a) && |b| == |a| + |b - a|;
    if |a| == |b| {
      assert b - a == {};
    }
  }

  lemma WithoutAt(order: seq<nat>, p: nat)
    requires p < |order|
    ensures var r := Tasks.Without(order, p);
            |r| == |order| - 1 && forall i | 0 <= i < |r| :: r[i] == order[if i < p then i else i + 1]
    ensures p < |order| - 1 ==>
              var r := Tasks.Without(order, p);
              && r[..|r| - 1] == Tasks.Without(order[..|order| - 1], p) && r[|r| - 1] == order[|order| - 1]
    ensures p == |order| - 1 ==> Tasks.Without(order, p) == order[..|order| - 1]
  {}

  lemma WorkStep(g: WorkGraph, order: seq<nat>)
    requires order != []
    ensures WorkAt(g, order) == WorkAt(g, order[..|order| - 1]) + NodeWork(g, order[|order| - 1])
  {}

  /** Taking a node out of an order takes its work out of the run. */
  lemma {:induction false} WorkWithout(g: WorkGraph, order: seq<nat>, p: nat)
    requires p < |order|
    ensures multiset(WorkAt(g, order))
         == multiset(WorkAt(g, Tasks.Without(order, p))) + multiset(NodeWork(g, order[p]))
  {
    hide WorkAt, NodeWork, Tasks.Without;
    WithoutAt(order, p);
    WorkStep(g, order);
    if p < |order| - 1 {
      WorkWithout(g, order[..|order| - 1], p);
      WorkStep(g, Tasks.Without(order, p));
    }
  }

  lemma IdentityStep(n: nat)
    requires n > 0
    ensures Identity(n)[..n - 1] == Identity(n - 1) && Identity(n)[n - 1] == n - 1 && Identity(0) == []
  {}

  /** n different numbers below n, as an order of the first n nodes. */
  ghost predicate Permutes(order: seq<nat>, n: nat) {
    && |order| == n && (forall i, j | 0 <= i < j < n :: order[i] != order[j])
    && forall i | 0 <= i < n :: order[i] < n
  }

  lemma WithoutPermutes(order: seq<nat>, p: nat)
    requires Permutes(order, |order|) && p < |order| && order[p] == |order| - 1
    ensures Permutes(Tasks.Without(order, p), |order| - 1)
  {
    hide Tasks.Without;
    WithoutAt(order, p);
  }

  lemma PermutesLast(order: seq<nat>, n: nat) returns (p: nat)
    requires Permutes(order, n) && n > 0
    ensures p < n && order[p] == n - 1
  {
    Pigeon(order, n);
    assert n - 1 in order;
    p :| 0 <= p < n && order[p] == n - 1;
  }

  lemma PermutesBelow(order: seq<nat>, n: nat)
    requires Permutes(order, n)
    ensures |order| == n && forall i | 0 <= i < |order| :: order[i] < n
    ensures n == 0 ==> order == Identity(0)
  {}

  /** Every order runs every functor of the first n nodes once. */
  lemma {:induction false} WorkPermuted(g: WorkGraph, order: seq<nat>, n: nat)
    requires Permutes(order, n) && n <= |g|
    ensures multiset(WorkAt(g, order)) == multiset(WorkAt(g, Identity(n)))
    decreases n
  {
    hide WorkAt, NodeWork, Tasks.Without, Identity, Permutes;
    PermutesBelow(order, n);
    if n > 0 {
      var p := PermutesLast(order, n);
      WithoutPermutes(order, p);
      WorkWithout(g, order, p);
      WorkPermuted(g, Tasks.Without(order, p), n - 1);
      IdentityStep(n);
      WorkStep(g, Identity(n));
    }
  }

  lemma ExtendedWork(g: WorkGraph, chain: seq<nat>, i: nat)
    requires i < |chain|
    ensures NodeWork(Extended(g, chain), |g| + i) == [chain[i]] && chain[..i + 1] == chain[..i] + [chain[i]]
  {
    hide Extended;
    ExtendedNodes(g, chain);
  }

  /** The order in which the nodes were added. */
  lemma {:induction false} WorkCreated(g: WorkGraph, chain: seq<nat>, i: nat)
    requires i <= |chain|
    ensures WorkAt(Extended(g, chain), Identity(|g| + i)) == WorkAt(g, Identity(|g|)) + chain[..i]
  {
    hide Extended, WorkAt, Identity, NodeWork;
    if i == 0 {
      ExtendedNodes(g, chain);
      WorkLocal(g, Extended(g, chain), |g|);
    } else {
      WorkCreated(g, chain, i - 1);
      ExtendedWork(g, chain, i - 1);
      IdentityStep(|g| + i);
      WorkStep(Extended(g, chain), Identity(|g| + i));
    }
  }

  lemma {:induction false} WorkLocal(g: WorkGraph, g': WorkGraph, n: nat)
    requires n <= |g| <= |g'| && g'[..|g|] == g
    ensures WorkAt(g, Identity(n)) == WorkAt(g', Identity(n))
  {
    hide WorkAt, Identity;
    if n > 0 {
      WorkLocal(g, g', n - 1);
      IdentityStep(n);
      WorkStep(g, Identity(n));
      WorkStep(g', Identity(n));
      assert g'[n - 1] == g[n - 1];
    } else {
      NoneWork(g);
      NoneWork(g');
    }
  }

  lemma NoneWork(g: WorkGraph)
    ensures Identity(0) == [] && WorkAt(g, []) == []
  {}

  function Flatten(chains: seq<seq<nat>>): seq<nat> {
    if chains == [] then [] else Flatten(chains[..|chains| - 1]) + chains[|chains| - 1]
  }

  lemma {:induction false} WorkOfChains(chains: seq<seq<nat>>)
    ensures WorkAt(GraphOf(chains), Identity(|GraphOf(chains)|)) == Flatten(chains)
  {
    hide Extended, WorkAt, Identity;
    if chains == [] {
      RootWork();
    } else {
      var g, last := GraphOf(chains[..|chains| - 1]), chains[|chains| - 1];
      WorkOfChains(chains[..|chains| - 1]);
      ExtendedNodes(g, last);
      WorkCreated(g, last, |last|);
      assert last[..|last|] == last;
    }
  }

  lemma TopologicalPermutes(g: WorkGraph, order: seq<nat>)
    requires Topological(g, order)
    ensures Permutes(order, |g|) && |order| == |g|
  {}

  /** A submission runs the work of all connected chains, whether they were started or dropped, every functor once. */
  lemma SubmissionRuns(chains: seq<seq<nat>>, order: seq<nat>)
    requires Topological(GraphOf(chains), order)
    ensures multiset(WorkAt(GraphOf(chains), order)) == multiset(Flatten(chains))
  {
    hide GraphOf, WorkAt;
    WorkOfChains(chains);
    TopologicalPermutes(GraphOf(chains), order);
    WorkPermuted(GraphOf(chains), order, |order|);
  }

  lemma ChainLinked(g: WorkGraph, chain: seq<nat>)
    requires |g| == 1
    ensures |Extended(g, chain)| == 1 + |chain|
    ensures forall v: nat | 0 < v < |Extended(g, chain)| :: v - 1 in Extended(g, chain)[v].preds
  {
    hide Extended;
    ExtendedNodes(g, chain);
    forall v: nat | 0 < v < |Extended(g, chain)| ensures v - 1 in Extended(g, chain)[v].preds {
      var i := v - 1;
      assert Extended(g, chain)[|g| + i] == Node(Some(chain[i]), {Behind(|g|, i)}) && Behind(1, i) == i;
    }
  }

  /** With one chain there is one order, that of the chain. */
  lemma ChainRuns(chain: seq<nat>, order: seq<nat>)
    requires Topological(Extended(Fresh(), chain), order)
    ensures WorkAt(Extended(Fresh(), chain), order) == chain
  {
    hide Extended, WorkAt, Topological;
    var g := Extended(Fresh(), chain);
    ChainLinked(Fresh(), chain);
    ChainOrder(g, order, |chain| + 1);
    TopologicalPermutes(g, order);
    assert order == Identity(|chain| + 1);
    WorkCreated(Fresh(), chain, |chain|);
    RootWork();
    assert chain[..|chain|] == chain;
  }

  lemma RootWork()
    ensures |Fresh()| == 1 && WorkAt(Fresh(), Identity(1)) == []
  {
    assert Identity(1)[..0] == [];
  }

  lemma {:induction false} ChainOrder(g: WorkGraph, order: seq<nat>, n: nat)
    requires Topological(g, order) && n <= |g|
    requires forall v: nat | 0 < v < |g| :: v - 1 in g[v].preds
    ensures forall i | 0 <= i < n :: order[i] == i
  {
    if n > 0 {
      ChainOrder(g, order, n - 1);
      var v := order[n - 1];
      var there := order[v];
      if v > 0 {
        assert v - 1 in g[order[n - 1]].preds;
        assert v - 1 in order[..n - 1];
      }
    }
  }

  // ------------------------------------------------------------------------
  // Node construction that throws.
  // ------------------------------------------------------------------------

  /** The first of n works whose node construction throws, or n. */
  function FirstThrow(n: nat, throws: set<nat>): (f: nat)
    ensures f <= n && (f < n ==> f in throws) && forall i | 0 <= i < f :: i !in throws
  {
    if n == 0 then 0
    else
      var f := FirstThrow(n - 1, throws);
      if f == n - 1 && n - 1 !in throws then n else f
  }

  /** The operation states of a chain that is connected behind n nodes. */
  predicate Constructed(ops: seq<Op>, n: nat, size: nat, f: nat, open: bool) {
    && |ops| == size
    && forall i | 0 <= i < size ::
         ops[i] == if open && i < f then Op(Some(n + i), false) else Op(None, open && i == f)
  }

  // ------------------------------------------------------------------------
  // The state.
  // ------------------------------------------------------------------------

  class State {
    var graph: Option<WorkGraph>
    var isInstantiated: bool
    var isSubmitted: bool
    var events: seq<Event>
    var signals: seq<Signal>
    /** The functors that ran, in order. */
    var ran: seq<nat>
    /** The orders in which the submitted nodes ran. */
    ghost var orders: seq<seq<nat>>

    constructor ()
      ensures graph == None && !isInstantiated && !isSubmitted
      ensures events == [] && signals == [] && ran == [] && orders == []
    {
      graph := None;
      isInstantiated, isSubmitted := false, false;
      events, signals, ran, orders := [], [], [], [];
    }

    /** Build the graph when it is first needed. */
    method GetGraph() returns (g: WorkGraph)
      modifies this`graph
      ensures graph == Some(g) && g == if old(graph).Some? then old(graph).value else Fresh()
    {
      if graph.None? {
        graph := Some(Fresh());
      }
      g := graph.value;
    }

    method Submit()
      modifies this`isInstantiated, this`isSubmitted, this`events
      ensures if graph.Some? && !old(isSubmitted) then
                && isInstantiated && isSubmitted
                && events == old(events) + (if old(isInstantiated) then [] else [Instantiated]) + [Submitted]
              else isInstantiated == old(isInstantiated) && isSubmitted == old(isSubmitted) && events == old(events)
    {
      if graph.Some? {
        if !isSubmitted {
          if !isInstantiated {
            events := events + [Instantiated];
            isInstantiated := true;
          }
          events := events + [Submitted];
          isSubmitted := true;
        }
      }
    }

    /** The nodes of the submitted graph run in any order that their predecessors allow. */
    method Execute()
      requires graph.Some? && WellFormed(graph.value)
      modifies this`ran, this`orders
      ensures |orders| == |old(orders)| + 1 && orders[..|old(orders)|] == old(orders)
      ensures Topological(graph.value, orders[|old(orders)|])
      ensures ran == old(ran) + WorkAt(graph.value, orders[|old(orders)|])
    {
      hide *;
      var g := graph.value;
      NoWork(g);
      var done: set<nat> := {};
      ghost var order: seq<nat> := [];
      while exists v :: 0 <= v < |g| && v !in done
        invariant Partial(g, done, order)
        invariant ran == old(ran) + WorkAt(g, order) && orders == old(orders)
        decreases Range(|g|) - done
      {
        var v := Ready(g, done);
        PartialStep(g, done, order, v);
        PartialFewer(g, done, v);
        WorkMore(g, order, v);
        done := done + {v};
        order := order + [v];
        NodeWorkIs(g, v);
        if g[v].task.Some? {
          ran := ran + [g[v].task.value];
        }
      }
      PartialEnd(g, done, order);
      orders := orders + [order];
    }

    /** If the graph is submitted, wait for it to complete. */
    method Wait()
      requires isSubmitted ==> graph.Some? && WellFormed(graph.value)
      modifies this`isSubmitted, this`events, this`ran, this`orders
      ensures !isSubmitted
      ensures if old(isSubmitted) then
                && events == old(events) + [Fenced]
                && |orders| == |old(orders)| + 1 && orders[..|old(orders)|] == old(orders)
                && Topological(graph.value, orders[|old(orders)|])
                && ran == old(ran) + WorkAt(graph.value, orders[|old(orders)|])
              else events == old(events) && ran == old(ran) && orders == old(orders)
    {
      if isSubmitted {
        events := events + [Fenced];
        Execute();
        isSubmitted := false;
      }
    }

    /**
     * Construct the operation states of a chain. A node is added only while the graph is not instantiated and unless
     * the construction of the previous node threw. That does not hold back the node after the next one, which then
     * finds no predecessor and aborts the program.
     */
    method Construct(chain: seq<nat>, throws: set<nat>) returns (ops: seq<Op>, aborted: bool)
      modifies this`graph
      ensures aborted <==> !isInstantiated && FirstThrow(|chain|, throws) + 2 < |chain|
      ensures var base := if old(graph).Some? then old(graph).value else Fresh();
              var f := FirstThrow(|chain|, throws);
              && graph == (if isInstantiated || chain == [] then old(graph) else Some(Extended(base, chain[..f])))
              && (!aborted ==> Constructed(ops, |base|, |chain|, f, !isInstantiated))
    {
      hide Extended, FirstThrow;
      ghost var base := if graph.Some? then graph.value else Fresh();
      ghost var f := FirstThrow(|chain|, throws);
      ops, aborted := [], false;
      var i := 0;
      assert chain[..0] == [];
      while i < |chain|
        invariant i <= |chain| && Constructed(ops, |base|, i, f, !isInstantiated)
        invariant isInstantiated || i == 0 ==> graph == old(graph)
        invariant !isInstantiated && i > 0 ==> graph == Some(Extended(base, chain[..if i < f then i else f]))
        invariant !isInstantiated ==> i <= f + 2
      {
        ExtendedStep(base, chain, i);
        var op := Op(None, false);
        if !isInstantiated && (i == 0 || !ops[i - 1].error) {
          var g := GetGraph();
          if i > 0 && ops[i - 1].node.None? {
            aborted := true;
            return;
          }
          if i in throws {
            op := Op(None, true);
          } else {
            graph := Some(g + [Node(Some(chain[i]), {if i == 0 then ROOT else ops[i - 1].node.value})]);
            op := Op(Some(|g|), false);
          }
        }
        ops := ops + [op];
        i := i + 1;
      }
    }

    /** The end of the chain is told of a value, only when nothing is submitted any more. */
    method Complete()
      requires !isSubmitted
      modifies this`signals
      ensures signals == old(signals) + [Value]
    {
      signals := signals + [Value];
    }

    /**
     * Start the chain: every work first reports the error of its construction, and is then started nevertheless.
     * It submits when its value arrives, and the end of the chain waits.
     */
    method StartChain(ops: seq<Op>)
      requires !isSubmitted && (ops != [] ==> graph.Some? && WellFormed(graph.value))
      modifies this`isInstantiated, this`isSubmitted, this`events, this`signals, this`ran, this`orders
      ensures !isSubmitted && signals == old(signals) + Errors(ops, 0) + [Value]
      ensures if ops == [] then
                && isInstantiated == old(isInstantiated) && events == old(events)
                && ran == old(ran) && orders == old(orders)
              else
                && isInstantiated && events == old(events) + (if old(isInstantiated) then [] else [Instantiated])
                                               + [Submitted, Fenced]
                && |orders| == |old(orders)| + 1 && orders[..|old(orders)|] == old(orders)
                && Topological(graph.value, orders[|old(orders)|])
                && ran == old(ran) + WorkAt(graph.value, orders[|old(orders)|])
    {
      hide WorkAt, Topological, WellFormed;
      var i: nat := |ops|;
      while i > 0
        invariant i <= |ops| && signals == old(signals) + Errors(ops, i)
        modifies this`signals
      {
        i := i - 1;
        if ops[i].error {
          signals := signals + [Error];
        }
      }
      while i < |ops|
        invariant i <= |ops|
        modifies this`isInstantiated, this`isSubmitted, this`events
        invariant (isSubmitted <==> i > 0) && (i == 0 ==> isInstantiated == old(isInstantiated))
        invariant i == 0 ==> events == old(events)
        invariant i > 0 ==>
                    && isInstantiated
                    && events == old(events) + (if old(isInstantiated) then [] else [Instantiated]) + [Submitted]
      {
        Submit();
        i := i + 1;
      }
      Wait();
      Complete();
    }
  }

  /** The errors that the works from i on report, the last work first. */
  function Errors(ops: seq<Op>, i: nat): seq<Signal>
    requires i <= |ops|
    decreases |ops| - i
  {
    if i == |ops| then [] else Errors(ops, i + 1) + if ops[i].error then [Error] else []
  }

  lemma {:induction false} ErrorsOf(ops: seq<Op>, n: nat, f: nat, open: bool, i: nat)
    requires Constructed(ops, n, |ops|, f, open) && i <= |ops|
    ensures Errors(ops, i) == if open && i <= f < |ops| then [Error] else []
    decreases |ops| - i
  {
    if i < |ops| {
      ErrorsOf(ops, n, f, open, i + 1);
    }
  }
}
