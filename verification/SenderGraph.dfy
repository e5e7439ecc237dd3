/** Sender expressions compiled to graph nodes at connect time, and the order that the nodes are left in. */
module SenderGraph {
  import opened Schedule
  import opened Wrappers

  /**
   * A sender expression on one graph context. Every then and every bulk carries a label.
   * Start is a schedule at the top, and the cached sender at the head of a fork_join branch.
   */
  datatype Sender =
    | Start
    | Work(src: Sender, id: nat)
    | ContinuesOn(src: Sender)
    | WhenAll(children: Senders)
    | ForkJoin(src: Sender, branches: Senders)

  datatype Senders = Nil | Cons(head: Sender, tail: Senders)

  /** Nodes with the label of their work. The root and the aggregate nodes do no work. */
  type WorkGraph = Nodes<Option<nat>>

  const ROOT: nat := 0

  /** The node of the operation state if it has one, else the node of the environment, else the root. */
  function Predecessor(opstate: Option<nat>, env: Option<nat>): nat {
    if opstate.Some? then opstate.value else if env.Some? then env.value else ROOT
  }

  /**
   * The graph after a sender is connected to a receiver with the given environment, and the node its operation
   * state answers.
   */
  datatype Connected = Connected(graph: WorkGraph, node: Option<nat>)

  function Connect(e: Sender, env: Option<nat>, g: WorkGraph): (c: Connected) {
    match e
    case Start => Connected(g, None)
    case Work(src, id) =>
      var c := Connect(src, env, g);
      Connected(c.graph + [Node(Some(id), {Predecessor(c.node, env)})], Some(|c.graph|))
    case ContinuesOn(src) =>
      var c := Connect(src, env, g);
      Connected(c.graph, Some(Predecessor(c.node, env)))
    case WhenAll(children) =>
      var c := ConnectAll(children, env, g);
      Connected(c.graph + [Node(None, c.nodes)], Some(|c.graph|))
    case ForkJoin(src, branches) =>
      var f := Connect(src, env, g);
      var c := ConnectAll(branches, Some(Predecessor(f.node, env)), f.graph);
      Connected(c.graph + [Node(None, c.nodes)], Some(|c.graph|))
  }

  /** The graph after all children are connected, and the nodes they answer. */
  datatype AllConnected = AllConnected(graph: WorkGraph, nodes: set<nat>)

  function ConnectAll(es: Senders, env: Option<nat>, g: WorkGraph): (c: AllConnected) {
    match es
    case Nil => AllConnected(g, {})
    case Cons(e, rest) =>
      var c := Connect(e, env, g);
      var r := ConnectAll(rest, env, c.graph);
      AllConnected(r.graph, (if c.node.Some? then {c.node.value} else {}) + r.nodes)
  }

  // ------------------------------------------------------------------------
  // The order that the expression asks for.
  // ------------------------------------------------------------------------

  function Works(e: Sender): set<nat> {
    match e
    case Start => {}
    case Work(src, id) => Works(src) + {id}
    case ContinuesOn(src) => Works(src)
    case WhenAll(children) => AllWorks(children)
    case ForkJoin(src, branches) => Works(src) + AllWorks(branches)
  }

  function AllWorks(es: Senders): set<nat> {
    match es
    case Nil => {}
    case Cons(e, rest) => Works(e) + AllWorks(rest)
  }

  /** Series-parallel order: a is before b in a sequence that contains both. */
  predicate Before(e: Sender, a: nat, b: nat) {
    match e
    case Start => false
    case Work(src, id) => Before(src, a, b) || (a in Works(src) && b == id)
    case ContinuesOn(src) => Before(src, a, b)
    case WhenAll(children) => BeforeInAny(children, a, b)
    case ForkJoin(src, branches) =>
      Before(src, a, b) || (a in Works(src) && b in AllWorks(branches)) || BeforeInAny(branches, a, b)
  }

  predicate BeforeInAny(es: Senders, a: nat, b: nat) {
    match es
    case Nil => false
    case Cons(e, rest) => Before(e, a, b) || BeforeInAny(rest, a, b)
  }

  /** All labels are different, and what is joined is a nonempty list of senders that have a node. */
  predicate Proper(e: Sender) {
    match e
    case Start => true
    case Work(src, id) => Proper(src) && id !in Works(src)
    case ContinuesOn(src) => Proper(src)
    case WhenAll(children) => children.Cons? && AllProper(children)
    case ForkJoin(src, branches) =>
      Proper(src) && branches.Cons? && AllProper(branches) && Works(src) !! AllWorks(branches)
  }

  predicate AllProper(es: Senders) {
    match es
    case Nil => true
    case Cons(e, rest) => Proper(e) && !e.Start? && AllProper(rest) && Works(e) !! AllWorks(rest)
  }

  lemma {:induction false} BeforeWorks(e: Sender, a: nat, b: nat)
    requires Before(e, a, b)
    ensures a in Works(e) && b in Works(e)
  {
    match e
    case Start =>
    case Work(src, id) =>
      if Before(src, a, b) {
        BeforeWorks(src, a, b);
      }
    case ContinuesOn(src) =>
      BeforeWorks(src, a, b);
    case WhenAll(children) =>
      BeforeInAnyWorks(children, a, b);
    case ForkJoin(src, branches) =>
      if Before(src, a, b) {
        BeforeWorks(src, a, b);
      } else if BeforeInAny(branches, a, b) {
        BeforeInAnyWorks(branches, a, b);
      }
  }

  lemma {:induction false} BeforeInAnyWorks(es: Senders, a: nat, b: nat)
    requires BeforeInAny(es, a, b)
    ensures a in AllWorks(es) && b in AllWorks(es)
  {
    if Before(es.head, a, b) {
      BeforeWorks(es.head, a, b);
    } else {
      BeforeInAnyWorks(es.tail, a, b);
    }
  }

  // ------------------------------------------------------------------------
  // Extending a graph.
  // ------------------------------------------------------------------------

  /** Only nodes after the old ones were added, each behind the entry or behind other new nodes. */
  ghost predicate Extends(g: WorkGraph, g': WorkGraph, entry: nat) {
    && |g| <= |g'| && g' [..|g|] == g
    && forall v | |g| <= v < |g'| ::
         g'[v].preds != {} && forall w | w in g'[v].preds :: w < v && (w == entry || w >= |g|)
  }

  predicate ReachOrSame(g: WorkGraph, u: nat, v: nat) {
    u == v || Reach(g, u, v)
  }

  /** New nodes do not change which old nodes reach which. */
  lemma {:induction false} ReachLocal(g: WorkGraph, g': WorkGraph, u: nat, v: nat)
    requires |g| <= |g'| && g'[..|g|] == g && v < |g|
    ensures Reach(g', u, v) == Reach(g, u, v)
    decreases v
  {
    assert g'[v] == g[v];
    forall w | w in g[v].preds && w < v ensures Reach(g', u, w) == Reach(g, u, w) {
      ReachLocal(g, g', u, w);
    }
  }

  /** An old node reaches a new one exactly through the entry. */
  lemma {:induction false} ReachEntry(g: WorkGraph, g': WorkGraph, entry: nat, u: nat, v: nat)
    requires Extends(g, g', entry) && entry < |g| && u < |g| <= v < |g'|
    ensures Reach(g', u, v) <==> ReachOrSame(g, u, entry)
    decreases v
  {
    ReachLocal(g, g', u, entry);
    if Reach(g', u, v) {
      var w :| w in g'[v].preds && w < v && (w == u || Reach(g', u, w));
      if w != entry {
        ReachEntry(g, g', entry, u, w);
      }
    } else {
      var w :| w in g'[v].preds;
      if w != entry {
        ReachEntry(g, g', entry, u, w);
      }
    }
  }

  lemma ExtendsTrans(a: WorkGraph, b: WorkGraph, c: WorkGraph, entry: nat, mid: nat)
    requires Extends(a, b, entry) && Extends(b, c, mid) && (mid == entry || mid >= |a|)
    ensures Extends(a, c, entry)
  {
    forall v | |a| <= v < |c|
      ensures c[v].preds != {} && forall w | w in c[v].preds :: w < v && (w == entry || w >= |a|)
    {
      if v < |b| {
        assert c[v] == b[v];
      }
    }
    assert c[..|a|] == c[..|b|][..|a|];
  }

  lemma ExtendsOne(g: WorkGraph, n: Node<Option<nat>>, entry: nat, from: WorkGraph)
    requires Extends(from, g, entry) && n.preds != {}
    requires forall w | w in n.preds :: w < |g| && (w == entry || w >= |from|)
    ensures Extends(from, g + [n], entry)
  {
    assert (g + [n])[..|from|] == g[..|from|];
  }

  // ------------------------------------------------------------------------
  // What connecting leaves.
  // ------------------------------------------------------------------------

  ghost predicate Fits(env: Option<nat>, g: WorkGraph) {
    |g| >= 1 && (env.Some? ==> env.value < |g|)
  }

  /** Where the first work of a sender is attached. */
  function Entry(env: Option<nat>): nat {
    Predecessor(None, env)
  }

  /** Connecting extends the graph behind the entry. Every sender but a bare start has a node. */
  lemma {:induction false} ConnectExtends(e: Sender, env: Option<nat>, g: WorkGraph)
    requires Proper(e) && Fits(env, g)
    ensures var c := Connect(e, env, g);
            && Extends(g, c.graph, Entry(env)) && (c.node.None? <==> e.Start?)
            && (var n := Predecessor(c.node, env); (n == Entry(env) || n >= |g|) && n < |c.graph|)
  {
    hide Extends;
    ExtendsSelf(g, Entry(env));
    match e
    case Start =>
    case Work(src, id) =>
      ConnectExtends(src, env, g);
      var c := Connect(src, env, g);
      ExtendsOne(c.graph, Node(Some(id), {Predecessor(c.node, env)}), Entry(env), g);
      ExtendsMore(g, c.graph, Entry(env));
    case ContinuesOn(src) =>
      ConnectExtends(src, env, g);
    case WhenAll(children) =>
      ConnectAllExtends(children, env, g);
      var c := ConnectAll(children, env, g);
      ExtendsOne(c.graph, Node(None, c.nodes), Entry(env), g);
      ExtendsMore(g, c.graph, Entry(env));
    case ForkJoin(src, branches) =>
      ConnectExtends(src, env, g);
      var f := Connect(src, env, g);
      var fork := Predecessor(f.node, env);
      ExtendsMore(g, f.graph, Entry(env));
      ConnectAllExtends(branches, Some(fork), f.graph);
      var c := ConnectAll(branches, Some(fork), f.graph);
      ExtendsTrans(g, f.graph, c.graph, Entry(env), fork);
      ExtendsOne(c.graph, Node(None, c.nodes), Entry(env), g);
      ExtendsMore(g, c.graph, Entry(env));
      ExtendsMore(f.graph, c.graph, fork);
  }

  lemma {:induction false} ConnectAllExtends(es: Senders, env: Option<nat>, g: WorkGraph)
    requires AllProper(es) && Fits(env, g)
    ensures var r := ConnectAll(es, env, g);
            && Extends(g, r.graph, Entry(env)) && (es.Cons? ==> r.nodes != {})
            && (forall n | n in r.nodes :: (n == Entry(env) || n >= |g|) && n < |r.graph|)
  {
    hide Extends;
    match es
    case Nil =>
      ExtendsSelf(g, Entry(env));
    case Cons(e, rest) =>
      ConnectExtends(e, env, g);
      var c := Connect(e, env, g);
      ExtendsMore(g, c.graph, Entry(env));
      ConnectAllExtends(rest, env, c.graph);
      ExtendsMore(c.graph, ConnectAll(rest, env, c.graph).graph, Entry(env));
      ExtendsTrans(g, c.graph, ConnectAll(rest, env, c.graph).graph, Entry(env), Entry(env));
      assert c.node.Some? && c.node.value in ConnectAll(es, env, g).nodes;
  }

  lemma ExtendsSelf(g: WorkGraph, entry: nat)
    ensures Extends(g, g, entry)
  {}

  lemma ExtendsMore(g: WorkGraph, g': WorkGraph, entry: nat)
    requires Extends(g, g', entry)
    ensures |g| <= |g'| && g'[..|g|] == g
  {}

  // ------------------------------------------------------------------------
  // Everything that was added leads to the node of the sender.
  // ------------------------------------------------------------------------

  lemma ReachTrans(g: WorkGraph, u: nat, v: nat, w: nat)
    requires ReachOrSame(g, u, v) && w < |g| && v in g[w].preds && v < w
    ensures Reach(g, u, w)
  {
    ReachVia(g, u, v, w);
  }

  lemma ReachOrSameLocal(g: WorkGraph, g': WorkGraph, u: nat, v: nat)
    requires |g| <= |g'| && g'[..|g|] == g && v < |g|
    ensures ReachOrSame(g', u, v) == ReachOrSame(g, u, v)
  {
    ReachLocal(g, g', u, v);
  }

  lemma {:induction false} ConnectSinks(e: Sender, env: Option<nat>, g: WorkGraph, v: nat)
    requires Proper(e) && Fits(env, g)
    requires |g| <= v < |Connect(e, env, g).graph|
    ensures ReachOrSame(Connect(e, env, g).graph, v, Predecessor(Connect(e, env, g).node, env))
  {
    hide Extends, Reach;
    ConnectExtends(e, env, g);
    var g' := Connect(e, env, g).graph;
    match e
    case Start =>
    case Work(src, id) =>
      var c := Connect(src, env, g);
      if v < |c.graph| {
        ConnectExtends(src, env, g);
        ConnectSinks(src, env, g, v);
        Led(c.graph, g', v, Predecessor(c.node, env));
      }
    case ContinuesOn(src) =>
      ConnectSinks(src, env, g, v);
    case WhenAll(children) =>
      var c := ConnectAll(children, env, g);
      if v < |c.graph| {
        var n := ConnectAllSinks(children, env, g, v);
        Led(c.graph, g', v, n);
      }
    case ForkJoin(src, branches) =>
      var f := Connect(src, env, g);
      var fork := Predecessor(f.node, env);
      ConnectExtends(src, env, g);
      ExtendsMore(g, f.graph, Entry(env));
      ConnectAllExtends(branches, Some(fork), f.graph);
      var c := ConnectAll(branches, Some(fork), f.graph);
      ExtendsMore(f.graph, c.graph, fork);
      if v < |f.graph| {
        ConnectSinks(src, env, g, v);
        var n :| n in c.nodes;
        ForkLeads(f.graph, c.graph, fork, v, n);
        Led(c.graph, g', v, n);
      } else if v < |c.graph| {
        var n := ConnectAllSinks(branches, Some(fork), f.graph, v);
        Led(c.graph, g', v, n);
      }
  }

  /** What leads to the fork leads to everything behind it. */
  lemma ForkLeads(g: WorkGraph, g': WorkGraph, fork: nat, v: nat, n: nat)
    requires Extends(g, g', fork) && fork < |g| && ReachOrSame(g, v, fork) && v < |g|
    requires n < |g'| && (n == fork || n >= |g|)
    ensures ReachOrSame(g', v, n)
  {
    hide Reach;
    ReachOrSameLocal(g, g', v, fork);
    if n >= |g| {
      ReachEntry(g, g', fork, v, n);
    }
  }

  /** What leads to a predecessor of the new last node leads to the last node. */
  lemma Led(g: WorkGraph, g': WorkGraph, v: nat, n: nat)
    requires |g'| == |g| + 1 && g'[..|g|] == g && n in g'[|g|].preds && n < |g| && ReachOrSame(g, v, n)
    ensures Reach(g', v, |g|)
  {
    hide Reach;
    ReachOrSameLocal(g, g', v, n);
    ReachTrans(g', v, n, |g|);
  }

  lemma {:induction false} ConnectAllSinks(es: Senders, env: Option<nat>, g: WorkGraph, v: nat) returns (n: nat)
    requires AllProper(es) && Fits(env, g)
    requires |g| <= v < |ConnectAll(es, env, g).graph|
    ensures n in ConnectAll(es, env, g).nodes && n < |ConnectAll(es, env, g).graph|
    ensures ReachOrSame(ConnectAll(es, env, g).graph, v, n)
  {
    hide Extends, Reach;
    ConnectAllExtends(es, env, g);
    match es
    case Nil =>
    case Cons(e, rest) =>
      var c := Connect(e, env, g);
      ConnectExtends(e, env, g);
      ExtendsMore(g, c.graph, Entry(env));
      if v < |c.graph| {
        ConnectSinks(e, env, g, v);
        n := c.node.value;
        ConnectAllExtends(rest, env, c.graph);
        var r := ConnectAll(rest, env, c.graph);
        ExtendsMore(c.graph, r.graph, Entry(env));
        ReachOrSameLocal(c.graph, r.graph, v, n);
      } else {
        n := ConnectAllSinks(rest, env, c.graph, v);
      }
  }

  // ------------------------------------------------------------------------
  // Every label has one node.
  // ------------------------------------------------------------------------

  /** The nodes from lo on carry each of the labels once, and no other label. */
  ghost predicate Carry(g: WorkGraph, lo: nat, labels: set<nat>) {
    && (forall v | lo <= v < |g| && g[v].task.Some? :: g[v].task.value in labels)
    && (forall a | a in labels :: exists v | lo <= v < |g| :: g[v].task == Some(a))
    && (forall u, v | lo <= u < v < |g| && g[u].task.Some? :: g[u].task != g[v].task)
  }

  lemma CarryJoin(g: WorkGraph, g': WorkGraph, lo: nat, a: set<nat>, b: set<nat>)
    requires lo <= |g| <= |g'| && g'[..|g|] == g && Carry(g, lo, a) && Carry(g', |g|, b) && a !! b
    ensures Carry(g', lo, a + b)
  {
    assert forall v | 0 <= v < |g| :: g'[v] == g[v];
    forall x | x in a + b ensures exists v | lo <= v < |g'| :: g'[v].task == Some(x) {
      if x in a {
        var v :| lo <= v < |g| && g[v].task == Some(x);
        assert g'[v].task == Some(x);
      }
    }
  }

  lemma CarryOne(g: WorkGraph, lo: nat, labels: set<nat>, n: Node<Option<nat>>)
    requires lo <= |g| && Carry(g, lo, labels) && (n.task.Some? ==> n.task.value !in labels)
    ensures Carry(g + [n], lo, labels + if n.task.Some? then {n.task.value} else {})
  {
    assert (g + [n])[|g|].task == n.task;
    CarryJoin(g, g + [n], lo, labels, if n.task.Some? then {n.task.value} else {});
  }

  lemma {:induction false} ConnectCarries(e: Sender, env: Option<nat>, g: WorkGraph)
    requires Proper(e) && Fits(env, g)
    ensures Carry(Connect(e, env, g).graph, |g|, Works(e))
  {
    hide Extends, Carry;
    match e
    case Start =>
      CarryNone(g);
    case Work(src, id) =>
      ConnectCarries(src, env, g);
      ConnectExtends(src, env, g);
      var c := Connect(src, env, g);
      ExtendsMore(g, c.graph, Entry(env));
      CarryOne(c.graph, |g|, Works(src), Node(Some(id), {Predecessor(c.node, env)}));
    case ContinuesOn(src) =>
      ConnectCarries(src, env, g);
    case WhenAll(children) =>
      ConnectAllCarries(children, env, g);
      ConnectAllExtends(children, env, g);
      var c := ConnectAll(children, env, g);
      ExtendsMore(g, c.graph, Entry(env));
      CarryOne(c.graph, |g|, AllWorks(children), Node(None, c.nodes));
      assert AllWorks(children) + {} == AllWorks(children);
    case ForkJoin(src, branches) =>
      var f := Connect(src, env, g);
      var fork := Predecessor(f.node, env);
      ConnectCarries(src, env, g);
      ConnectExtends(src, env, g);
      ExtendsMore(g, f.graph, Entry(env));
      ConnectAllCarries(branches, Some(fork), f.graph);
      ConnectAllExtends(branches, Some(fork), f.graph);
      var c := ConnectAll(branches, Some(fork), f.graph);
      ExtendsMore(f.graph, c.graph, fork);
      CarryJoin(f.graph, c.graph, |g|, Works(src), AllWorks(branches));
      CarryOne(c.graph, |g|, Works(e), Node(None, c.nodes));
      assert Works(e) + {} == Works(e);
  }

  lemma {:induction false} ConnectAllCarries(es: Senders, env: Option<nat>, g: WorkGraph)
    requires AllProper(es) && Fits(env, g)
    ensures Carry(ConnectAll(es, env, g).graph, |g|, AllWorks(es))
  {
    hide Extends, Carry;
    match es
    case Nil =>
      CarryNone(g);
    case Cons(e, rest) =>
      var c := Connect(e, env, g);
      ConnectCarries(e, env, g);
      ConnectExtends(e, env, g);
      ExtendsMore(g, c.graph, Entry(env));
      ConnectAllCarries(rest, env, c.graph);
      ConnectAllExtends(rest, env, c.graph);
      ExtendsMore(c.graph, ConnectAll(rest, env, c.graph).graph, Entry(env));
      CarryJoin(c.graph, ConnectAll(rest, env, c.graph).graph, |g|, Works(e), AllWorks(rest));
  }

  lemma CarryNone(g: WorkGraph)
    ensures Carry(g, |g|, {})
  {}

  // ------------------------------------------------------------------------
  // Reachability is the series-parallel order.
  // ------------------------------------------------------------------------

  lemma CarryLabel(g: WorkGraph, lo: nat, labels: set<nat>, v: nat)
    requires Carry(g, lo, labels) && lo <= v < |g| && g[v].task.Some?
    ensures g[v].task.value in labels
  {}

  lemma NotBefore(e: Sender, a: nat, b: nat)
    requires a !in Works(e) || b !in Works(e)
    ensures !Before(e, a, b)
  {
    if Before(e, a, b) {
      BeforeWorks(e, a, b);
    }
  }

  lemma NotBeforeInAny(es: Senders, a: nat, b: nat)
    requires a !in AllWorks(es) || b !in AllWorks(es)
    ensures !BeforeInAny(es, a, b)
  {
    if BeforeInAny(es, a, b) {
      BeforeInAnyWorks(es, a, b);
    }
  }

  lemma NoWayBack(g: WorkGraph, u: nat, v: nat)
    requires v <= u
    ensures !Reach(g, u, v)
  {
    if Reach(g, u, v) {
      ReachBefore(g, u, v);
    }
  }

  /** One node reaches another exactly when its work is before the other one's in the expression. */
  lemma {:induction false} ConnectOrders(e: Sender, env: Option<nat>, g: WorkGraph, u: nat, v: nat, a: nat, b: nat)
    requires Proper(e) && Fits(env, g)
    requires |g| <= u < |Connect(e, env, g).graph| && |g| <= v < |Connect(e, env, g).graph|
    requires Connect(e, env, g).graph[u].task == Some(a) && Connect(e, env, g).graph[v].task == Some(b)
    ensures Reach(Connect(e, env, g).graph, u, v) <==> Before(e, a, b)
    decreases e, 1
  {
    hide Extends, Reach, Carry;
    var g' := Connect(e, env, g).graph;
    match e
    case Start =>
    case Work(src, id) =>
      WorkOrders(src, id, env, g, u, v, a, b);
    case ContinuesOn(src) =>
      ConnectOrders(src, env, g, u, v, a, b);
    case WhenAll(children) =>
      var c := ConnectAll(children, env, g);
      ConnectAllExtends(children, env, g);
      ExtendsMore(g, c.graph, Entry(env));
      ConnectAllOrders(children, env, g, u, v, a, b);
      ReachLocal(c.graph, g', u, v);
    case ForkJoin(src, branches) =>
      ForkOrders(src, branches, env, g, u, v, a, b);
  }

  lemma {:induction false} WorkOrders(src: Sender, id: nat, env: Option<nat>, g: WorkGraph, u: nat, v: nat, a: nat,
      b: nat)
    requires Proper(Work(src, id)) && Fits(env, g)
    requires |g| <= u < |Connect(Work(src, id), env, g).graph| && |g| <= v < |Connect(Work(src, id), env, g).graph|
    requires Connect(Work(src, id), env, g).graph[u].task == Some(a)
        && Connect(Work(src, id), env, g).graph[v].task == Some(b)
    ensures Reach(Connect(Work(src, id), env, g).graph, u, v) <==> Before(Work(src, id), a, b)
    decreases Work(src, id), 0
  {
    hide Extends, Reach, Carry;
    var c, g' := Connect(src, env, g), Connect(Work(src, id), env, g).graph;
    ConnectExtends(src, env, g);
    ExtendsMore(g, c.graph, Entry(env));
    ConnectCarries(src, env, g);
    if u >= |c.graph| {
      NoWayBack(g', u, v);
      NotBefore(src, a, b);
    } else {
      CarryLabel(c.graph, |g|, Works(src), u);
      if v < |c.graph| {
        CarryLabel(c.graph, |g|, Works(src), v);
        ConnectOrders(src, env, g, u, v, a, b);
        ReachLocal(c.graph, g', u, v);
      } else {
        ConnectSinks(src, env, g, u);
        Led(c.graph, g', u, Predecessor(c.node, env));
      }
    }
  }

  lemma {:induction false} ForkOrders(src: Sender, branches: Senders, env: Option<nat>, g: WorkGraph, u: nat,
      v: nat, a: nat, b: nat)
    requires Proper(ForkJoin(src, branches)) && Fits(env, g)
    requires |g| <= u < |Connect(ForkJoin(src, branches), env, g).graph|
        && |g| <= v < |Connect(ForkJoin(src, branches), env, g).graph|
    requires Connect(ForkJoin(src, branches), env, g).graph[u].task == Some(a)
    requires Connect(ForkJoin(src, branches), env, g).graph[v].task == Some(b)
    ensures Reach(Connect(ForkJoin(src, branches), env, g).graph, u, v) <==> Before(ForkJoin(src, branches), a, b)
    decreases ForkJoin(src, branches), 0
  {
    hide Extends, Reach, Carry;
    var f, g' := Connect(src, env, g), Connect(ForkJoin(src, branches), env, g).graph;
    var fork := Predecessor(f.node, env);
    var c := ConnectAll(branches, Some(fork), f.graph);
    ConnectExtends(src, env, g);
    ExtendsMore(g, f.graph, Entry(env));
    ConnectCarries(src, env, g);
    ConnectAllExtends(branches, Some(fork), f.graph);
    ExtendsMore(f.graph, c.graph, fork);
    ConnectAllCarries(branches, Some(fork), f.graph);
    ReachLocal(c.graph, g', u, v);
    if u < |f.graph| {
      CarryLabel(f.graph, |g|, Works(src), u);
      NotBeforeInAny(branches, a, b);
      if v < |f.graph| {
        CarryLabel(f.graph, |g|, Works(src), v);
        ConnectOrders(src, env, g, u, v, a, b);
        ReachLocal(f.graph, c.graph, u, v);
      } else {
        CarryLabel(c.graph, |f.graph|, AllWorks(branches), v);
        ConnectSinks(src, env, g, u);
        ReachEntry(f.graph, c.graph, fork, u, v);
      }
    } else {
      CarryLabel(c.graph, |f.graph|, AllWorks(branches), u);
      NotBefore(src, a, b);
      if v < |f.graph| {
        CarryLabel(f.graph, |g|, Works(src), v);
        NoWayBack(c.graph, u, v);
        NotBeforeInAny(branches, a, b);
      } else {
        ConnectAllOrders(branches, Some(fork), f.graph, u, v, a, b);
      }
    }
  }

  lemma {:induction false} ConnectAllOrders(es: Senders, env: Option<nat>, g: WorkGraph, u: nat, v: nat, a: nat, b: nat)
    requires AllProper(es) && Fits(env, g)
    requires |g| <= u < |ConnectAll(es, env, g).graph| && |g| <= v < |ConnectAll(es, env, g).graph|
    requires ConnectAll(es, env, g).graph[u].task == Some(a) && ConnectAll(es, env, g).graph[v].task == Some(b)
    ensures Reach(ConnectAll(es, env, g).graph, u, v) <==> BeforeInAny(es, a, b)
    decreases es, 1
  {
    hide Extends, Reach, Carry;
    match es
    case Nil =>
    case Cons(e, rest) =>
      var c := Connect(e, env, g);
      var r := ConnectAll(rest, env, c.graph);
      ConnectExtends(e, env, g);
      ExtendsMore(g, c.graph, Entry(env));
      ConnectCarries(e, env, g);
      ConnectAllExtends(rest, env, c.graph);
      ExtendsMore(c.graph, r.graph, Entry(env));
      ConnectAllCarries(rest, env, c.graph);
      if u < |c.graph| {
        CarryLabel(c.graph, |g|, Works(e), u);
        NotBeforeInAny(rest, a, b);
        if v < |c.graph| {
          CarryLabel(c.graph, |g|, Works(e), v);
          ConnectOrders(e, env, g, u, v, a, b);
          ReachLocal(c.graph, r.graph, u, v);
        } else {
          CarryLabel(r.graph, |c.graph|, AllWorks(rest), v);
          NotBefore(e, a, b);
          ReachEntry(c.graph, r.graph, Entry(env), u, v);
          NoWayBack(c.graph, u, Entry(env));
        }
      } else {
        CarryLabel(r.graph, |c.graph|, AllWorks(rest), u);
        NotBefore(e, a, b);
        if v < |c.graph| {
          CarryLabel(c.graph, |g|, Works(e), v);
          NotBeforeInAny(rest, a, b);
          NoWayBack(r.graph, u, v);
        } else {
          ConnectAllOrders(rest, env, c.graph, u, v, a, b);
        }
      }
  }

  /** The graph of a context before anything is connected. */
  function Fresh(): WorkGraph {
    [Node(None, {})]
  }

  /** The compiled graph is acyclic, has one node for every work item, and orders exactly what the expression orders. */
  lemma Compiled(e: Sender)
    requires Proper(e)
    ensures var g := Connect(e, None, Fresh()).graph;
            && WellFormed(g) && Carry(g, 1, Works(e))
            && forall u, v | 1 <= u < |g| && 1 <= v < |g| && g[u].task.Some? && g[v].task.Some? ::
                 Reach(g, u, v) <==> Before(e, g[u].task.value, g[v].task.value)
  {
    hide Reach, Carry;
    var g := Connect(e, None, Fresh()).graph;
    ConnectExtends(e, None, Fresh());
    ConnectCarries(e, None, Fresh());
    forall u, v | 1 <= u < |g| && 1 <= v < |g| && g[u].task.Some? && g[v].task.Some?
      ensures Reach(g, u, v) <==> Before(e, g[u].task.value, g[v].task.value)
    {
      ConnectOrders(e, None, Fresh(), u, v, g[u].task.value, g[v].task.value);
    }
  }

  // ------------------------------------------------------------------------
  // How many nodes and edges there are.
  // ------------------------------------------------------------------------

  function WorkNumber(e: Sender): nat {
    match e
    case Start => 0
    case Work(src, id) => WorkNumber(src) + 1
    case ContinuesOn(src) => WorkNumber(src)
    case WhenAll(children) => AllWorkNumber(children)
    case ForkJoin(src, branches) => WorkNumber(src) + AllWorkNumber(branches)
  }

  function AllWorkNumber(es: Senders): nat {
    match es
    case Nil => 0
    case Cons(e, rest) => WorkNumber(e) + AllWorkNumber(rest)
  }

  function JoinNumber(e: Sender): nat {
    match e
    case Start => 0
    case Work(src, id) => JoinNumber(src)
    case ContinuesOn(src) => JoinNumber(src)
    case WhenAll(children) => AllJoinNumber(children) + 1
    case ForkJoin(src, branches) => JoinNumber(src) + AllJoinNumber(branches) + 1
  }

  function AllJoinNumber(es: Senders): nat {
    match es
    case Nil => 0
    case Cons(e, rest) => JoinNumber(e) + AllJoinNumber(rest)
  }

  /** Connecting adds one node for every work and one for every join, and nothing else. */
  lemma {:induction false} NodesAdded(e: Sender, env: Option<nat>, g: WorkGraph)
    ensures |Connect(e, env, g).graph| == |g| + WorkNumber(e) + JoinNumber(e)
    decreases e, 0
  {
    match e
    case Start =>
    case Work(src, id) => NodesAdded(src, env, g);
    case ContinuesOn(src) => NodesAdded(src, env, g);
    case WhenAll(children) => AllNodesAdded(children, env, g);
    case ForkJoin(src, branches) =>
      NodesAdded(src, env, g);
      var f := Connect(src, env, g);
      AllNodesAdded(branches, Some(Predecessor(f.node, env)), f.graph);
  }

  lemma {:induction false} AllNodesAdded(es: Senders, env: Option<nat>, g: WorkGraph)
    ensures |ConnectAll(es, env, g).graph| == |g| + AllWorkNumber(es) + AllJoinNumber(es)
    decreases es, 0
  {
    match es
    case Nil =>
    case Cons(e, rest) =>
      NodesAdded(e, env, g);
      AllNodesAdded(rest, env, Connect(e, env, g).graph);
  }

  /** The expression without its transitions to other schedulers. */
  function Plain(e: Sender): (p: Sender)
    ensures !p.ContinuesOn?
    decreases e, 0
  {
    match e
    case Start => Start
    case Work(src, id) => Work(Plain(src), id)
    case ContinuesOn(src) => Plain(src)
    case WhenAll(children) => WhenAll(AllPlain(children))
    case ForkJoin(src, branches) => ForkJoin(Plain(src), AllPlain(branches))
  }

  function AllPlain(es: Senders): Senders
    decreases es, 0
  {
    match es
    case Nil => Nil
    case Cons(e, rest) => Cons(Plain(e), AllPlain(rest))
  }

  /** Every child of a join has work or a join of its own. */
  predicate Solid(e: Sender)
    decreases e, 0
  {
    match e
    case Start => true
    case Work(src, id) => Solid(src)
    case ContinuesOn(src) => Solid(src)
    case WhenAll(children) => AllSolid(children)
    case ForkJoin(src, branches) => Solid(src) && AllSolid(branches)
  }

  predicate AllSolid(es: Senders)
    decreases es, 0
  {
    match es
    case Nil => true
    case Cons(e, rest) => Solid(e) && !Plain(e).Start? && AllSolid(rest)
  }

  /** A continues_on leaves the graph as it is and answers the node that is already there. */
  lemma ContinuesOnAnswers(src: Sender, env: Option<nat>, g: WorkGraph)
    ensures var c, d := Connect(ContinuesOn(src), env, g), Connect(src, env, g);
            c.graph == d.graph && c.node == Some(Predecessor(d.node, env))
  {}

  /** So all of them together change neither the graph nor where the next work is attached. */
  lemma {:induction false} TransitionsAddNothing(e: Sender, env: Option<nat>, g: WorkGraph)
    requires Solid(e)
    ensures var c, d := Connect(e, env, g), Connect(Plain(e), env, g);
            && c.graph == d.graph && Predecessor(c.node, env) == Predecessor(d.node, env)
            && (!Plain(e).Start? ==> c.node == d.node && c.node.Some?)
    decreases e, 0
  {
    match e
    case Start =>
    case Work(src, id) => TransitionsAddNothing(src, env, g);
    case ContinuesOn(src) => TransitionsAddNothing(src, env, g);
    case WhenAll(children) => AllTransitionsAddNothing(children, env, g);
    case ForkJoin(src, branches) =>
      TransitionsAddNothing(src, env, g);
      var f := Connect(src, env, g);
      AllTransitionsAddNothing(branches, Some(Predecessor(f.node, env)), f.graph);
  }

  lemma {:induction false} AllTransitionsAddNothing(es: Senders, env: Option<nat>, g: WorkGraph)
    requires AllSolid(es)
    ensures ConnectAll(es, env, g) == ConnectAll(AllPlain(es), env, g)
    decreases es, 0
  {
    match es
    case Nil =>
    case Cons(e, rest) =>
      TransitionsAddNothing(e, env, g);
      AllTransitionsAddNothing(rest, env, Connect(e, env, g).graph);
  }

  /** The number of edges of a graph. */
  function Edges(g: WorkGraph): nat {
    if g == [] then 0 else Edges(g[..|g| - 1]) + |g[|g| - 1].preds|
  }

  lemma EdgesMore(g: WorkGraph, n: Node<Option<nat>>)
    ensures Edges(g + [n]) == Edges(g) + |n.preds|
  {
    assert (g + [n])[..|g|] == g;
  }

  /** One edge into every work, and one from every child of a join into the join. */
  function EdgeNumber(e: Sender): nat
    decreases e, 0
  {
    match e
    case Start => 0
    case Work(src, id) => EdgeNumber(src) + 1
    case ContinuesOn(src) => EdgeNumber(src)
    case WhenAll(children) => AllEdgeNumber(children) + Length(children)
    case ForkJoin(src, branches) => EdgeNumber(src) + AllEdgeNumber(branches) + Length(branches)
  }

  function AllEdgeNumber(es: Senders): nat
    decreases es, 0
  {
    match es
    case Nil => 0
    case Cons(e, rest) => EdgeNumber(e) + AllEdgeNumber(rest)
  }

  function Length(es: Senders): nat {
    match es
    case Nil => 0
    case Cons(e, rest) => Length(rest) + 1
  }

  /** An expression with work answers a node of its own. */
  lemma {:induction false} AnswersOwn(e: Sender, env: Option<nat>, g: WorkGraph)
    requires !Plain(e).Start?
    ensures var c := Connect(e, env, g); c.node.Some? && |g| <= c.node.value < |c.graph|
    decreases e, 0
  {
    NodesAdded(e, env, g);
    match e
    case Work(src, id) => NodesAdded(src, env, g);
    case ContinuesOn(src) => AnswersOwn(src, env, g);
    case WhenAll(children) => AllNodesAdded(children, env, g);
    case ForkJoin(src, branches) =>
      NodesAdded(src, env, g);
      var f := Connect(src, env, g);
      AllNodesAdded(branches, Some(Predecessor(f.node, env)), f.graph);
  }

  /** Connecting adds exactly that many edges. */
  lemma {:induction false} EdgesAdded(e: Sender, env: Option<nat>, g: WorkGraph)
    requires Solid(e)
    ensures Edges(Connect(e, env, g).graph) == Edges(g) + EdgeNumber(e)
    decreases e, 0
  {
    hide Edges;
    match e
    case Start =>
    case Work(src, id) =>
      EdgesAdded(src, env, g);
      var c := Connect(src, env, g);
      EdgesMore(c.graph, Node(Some(id), {Predecessor(c.node, env)}));
    case ContinuesOn(src) => EdgesAdded(src, env, g);
    case WhenAll(children) =>
      AllEdgesAdded(children, env, g);
      var c := ConnectAll(children, env, g);
      EdgesMore(c.graph, Node(None, c.nodes));
    case ForkJoin(src, branches) =>
      EdgesAdded(src, env, g);
      var f := Connect(src, env, g);
      var c := ConnectAll(branches, Some(Predecessor(f.node, env)), f.graph);
      AllEdgesAdded(branches, Some(Predecessor(f.node, env)), f.graph);
      EdgesMore(c.graph, Node(None, c.nodes));
  }

  lemma {:induction false} AllEdgesAdded(es: Senders, env: Option<nat>, g: WorkGraph)
    requires AllSolid(es)
    ensures var r := ConnectAll(es, env, g);
            && Edges(r.graph) == Edges(g) + AllEdgeNumber(es) && |r.nodes| == Length(es)
            && forall n | n in r.nodes :: |g| <= n
    decreases es, 0
  {
    hide Edges, Solid;
    match es
    case Nil =>
    case Cons(e, rest) =>
      EdgesAdded(e, env, g);
      AnswersOwn(e, env, g);
      AllEdgesAdded(rest, env, Connect(e, env, g).graph);
      assert Connect(e, env, g).node.value !in ConnectAll(rest, env, Connect(e, env, g).graph).nodes;
  }

  // ------------------------------------------------------------------------
  // The context that the operation states add their nodes to.
  // ------------------------------------------------------------------------

  class Context {
    var graph: WorkGraph

    constructor ()
      ensures graph == Fresh()
    {
      graph := Fresh();
    }

    method AddNode(task: Option<nat>, preds: set<nat>) returns (node: nat)
      modifies this
      ensures graph == old(graph) + [Node(task, preds)] && node == |old(graph)|
    {
      node := |graph|;
      graph := graph + [Node(task, preds)];
    }

    /** Construct the operation state of a sender, innermost first. */
    method Construct(e: Sender, env: Option<nat>) returns (node: Option<nat>)
      modifies this
      ensures graph == Connect(e, env, old(graph)).graph && node == Connect(e, env, old(graph)).node
      decreases e, 0
    {
      match e
      case Start =>
        node := None;
      case Work(src, id) =>
        var inner := Construct(src, env);
        var added := AddNode(Some(id), {Predecessor(inner, env)});
        node := Some(added);
      case ContinuesOn(src) =>
        var inner := Construct(src, env);
        node := Some(Predecessor(inner, env));
      case WhenAll(children) =>
        var nodes := ConstructAll(children, env);
        var added := AddNode(None, nodes);
        node := Some(added);
      case ForkJoin(src, branches) =>
        var forkOpState := Construct(src, env);
        var forkNode := Predecessor(forkOpState, env);
        var nodes := ConstructAll(branches, Some(forkNode));
        var added := AddNode(None, nodes);
        node := Some(added);
    }

    method ConstructAll(es: Senders, env: Option<nat>) returns (nodes: set<nat>)
      modifies this
      ensures graph == ConnectAll(es, env, old(graph)).graph && nodes == ConnectAll(es, env, old(graph)).nodes
      decreases es, 0
    {
      match es
      case Nil =>
        nodes := {};
      case Cons(e, rest) =>
        var node := Construct(e, env);
        nodes := ConstructAll(rest, env);
        if node.Some? {
          nodes := nodes + {node.value};
        }
    }
  }
}
