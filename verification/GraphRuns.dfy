/** A graph context while chains of work are connected to it, dropped, and started any number of times. */
module GraphRuns {
  import opened Wrappers
  import opened Schedule
  import opened SenderGraph
  import opened GraphState

  /** A chain is connected, with nodes whose construction throws, or the chain of an earlier call is started. */
  datatype Call = Connects(chain: seq<nat>, throws: set<nat>) | Starts(at: nat)

  /** The call starts a chain with work. */
  predicate Submits(calls: seq<Call>, i: nat)
    requires i < |calls|
  {
    calls[i].Starts? && calls[i].at < i && calls[calls[i].at].Connects? && calls[calls[i].at].chain != []
  }

  function Submissions(calls: seq<Call>): nat {
    if calls == [] then 0
    else Submissions(calls[..|calls| - 1]) + if Submits(calls, |calls| - 1) then 1 else 0
  }

  /** What the graph gets of a chain. */
  function Kept(call: Call): seq<nat>
    requires call.Connects?
  {
    call.chain[..FirstThrow(|call.chain|, call.throws)]
  }

  /** The chains in the graph: those connected before the first submission. */
  function Held(calls: seq<Call>): seq<seq<nat>> {
    if calls == [] then []
    else
      var init, last := calls[..|calls| - 1], calls[|calls| - 1];
      if last.Connects? && Submissions(init) == 0 && last.chain != [] then Held(init) + [Kept(last)] else Held(init)
  }

  /** Only connected chains are started, and no connection aborts the program. */
  predicate Legal(calls: seq<Call>) {
    forall i | 0 <= i < |calls| ::
      match calls[i]
      case Connects(chain, throws) =>
        Submissions(calls[..i]) == 0 ==> FirstThrow(|chain|, throws) + 2 >= |chain|
      case Starts(at) => at < i && calls[at].Connects?
  }

  /** The graph is built by the first call that connects work. */
  function GraphAfter(calls: seq<Call>): Option<WorkGraph> {
    if Held(calls) == [] then None else Some(GraphOf(Held(calls)))
  }

  function EventsOf(calls: seq<Call>): seq<Event> {
    (if Submissions(calls) == 0 then [] else [Instantiated]) + Repeated([Submitted, Fenced], Submissions(calls))
  }

  /** A chain that was connected with an error reports it first, and completes with a value nevertheless. */
  function SignalsOf(calls: seq<Call>): seq<Signal> {
    if calls == [] then []
    else
      var last := calls[|calls| - 1];
      SignalsOf(calls[..|calls| - 1])
      + if last.Starts? && last.at < |calls| - 1 then (if Failed(calls, last.at) then [Error] else []) + [Value] else []
  }

  /** Connecting the chain tried to add nodes, and one of them threw. */
  predicate Failed(calls: seq<Call>, i: nat)
    requires i < |calls|
  {
    && calls[i].Connects? && Submissions(calls[..i]) == 0
    && FirstThrow(|calls[i].chain|, calls[i].throws) < |calls[i].chain|
  }

  /** The functors that ran, for some order of the nodes in every submission. */
  ghost predicate RanBy(calls: seq<Call>, ran: seq<nat>, orders: seq<seq<nat>>) {
    var g := GraphOf(Held(calls));
    && |orders| == Submissions(calls) && (forall o | o in orders :: Topological(g, o))
    && ran == RunsOf(g, orders)
  }

  lemma CallStep(calls: seq<Call>, i: nat)
    requires i < |calls|
    ensures calls[..i + 1][..i] == calls[..i] && calls[..i + 1][i] == calls[i]
    ensures Submissions(calls[..i + 1]) == Submissions(calls[..i]) + if Submits(calls, i) then 1 else 0
    ensures Held(calls[..i + 1])
         == if calls[i].Connects? && Submissions(calls[..i]) == 0 && calls[i].chain != []
            then Held(calls[..i]) + [Kept(calls[i])] else Held(calls[..i])
    ensures SignalsOf(calls[..i + 1])
         == SignalsOf(calls[..i])
          + if calls[i].Starts? && calls[i].at < i
            then (if Failed(calls, calls[i].at) then [Error] else []) + [Value] else []
  {
    var now := calls[..i + 1];
    assert now[..i] == calls[..i];
    if calls[i].Starts? && calls[i].at < i {
      assert now[..calls[i].at] == calls[..calls[i].at];
    }
  }

  /** A chain with work that was connected leaves the graph built. */
  lemma {:induction false} HeldSome(calls: seq<Call>, i: nat, j: nat)
    requires i < j <= |calls| && calls[i].Connects? && calls[i].chain != []
    ensures Held(calls[..j]) != []
    decreases j
  {
    hide Kept, SignalsOf;
    CallStep(calls, j - 1);
    if i < j - 1 {
      HeldSome(calls, i, j - 1);
    } else if Submissions(calls[..i]) > 0 {
      SubmittedBefore(calls, i);
    }
  }

  /** So does a submission. */
  lemma {:induction false} SubmittedBefore(calls: seq<Call>, j: nat)
    requires j <= |calls| && Submissions(calls[..j]) > 0
    ensures Held(calls[..j]) != []
    decreases j
  {
    hide Kept, SignalsOf;
    assert calls[..0] == [];
    CallStep(calls, j - 1);
    if Submits(calls, j - 1) {
      HeldSome(calls, calls[j - 1].at, j - 1);
    } else {
      SubmittedBefore(calls, j - 1);
    }
  }

  lemma RunsStep(g: WorkGraph, orders: seq<seq<nat>>, last: seq<nat>)
    requires forall o | o in orders :: Topological(g, o)
    requires Topological(g, last)
    ensures forall o | o in orders + [last] :: Topological(g, o)
    ensures RunsOf(g, orders + [last]) == RunsOf(g, orders) + WorkAt(g, last)
  {
    hide WorkAt, Topological;
    assert (orders + [last])[..|orders|] == orders;
  }

  /** The state after the calls. */
  ghost predicate After(s: State, calls: seq<Call>)
    reads s
  {
    && !s.isSubmitted && (s.isInstantiated <==> Submissions(calls) > 0) && s.graph == GraphAfter(calls)
    && s.events == EventsOf(calls) && s.signals == SignalsOf(calls) && RanBy(calls, s.ran, s.orders)
  }

  /** The operation states of a chain that was connected by call j. */
  predicate Made(calls: seq<Call>, j: nat, ops: seq<Op>)
    requires j < |calls|
  {
    calls[j].Connects? ==> |ops| == |calls[j].chain| && Errors(ops, 0) == if Failed(calls, j) then [Error] else []
  }

  lemma LegalAt(calls: seq<Call>, i: nat)
    requires Legal(calls) && i < |calls|
    ensures calls[i].Connects? && Submissions(calls[..i]) == 0 ==>
              FirstThrow(|calls[i].chain|, calls[i].throws) + 2 >= |calls[i].chain|
    ensures calls[i].Starts? ==> calls[i].at < i && calls[calls[i].at].Connects?
  {
    hide Submissions, FirstThrow;
  }

  lemma GraphStep(chains: seq<seq<nat>>, chain: seq<nat>)
    ensures GraphOf(chains + [chain]) == Extended(GraphOf(chains), chain) && GraphOf([]) == Fresh()
  {
    hide Extended;
    assert (chains + [chain])[..|chains|] == chains;
  }

  /** What a connection means for the specification. */
  lemma ConnectStep(calls: seq<Call>, i: nat, ran: seq<nat>, orders: seq<seq<nat>>)
    requires i < |calls| && calls[i].Connects? && RanBy(calls[..i], ran, orders)
    ensures RanBy(calls[..i + 1], ran, orders)
    ensures EventsOf(calls[..i + 1]) == EventsOf(calls[..i]) && SignalsOf(calls[..i + 1]) == SignalsOf(calls[..i])
    ensures Submissions(calls[..i + 1]) == Submissions(calls[..i])
    ensures var g := GraphAfter(calls[..i]);
            GraphAfter(calls[..i + 1])
            == if Submissions(calls[..i]) > 0 || calls[i].chain == [] then g
               else Some(Extended(if g.Some? then g.value else Fresh(), Kept(calls[i])))
  {
    hide GraphOf, Extended, Kept, Held, Submissions, SignalsOf, Topological, WorkAt;
    CallStep(calls, i);
    GraphStep(Held(calls[..i]), Kept(calls[i]));
    if Submissions(calls[..i]) == 0 {
      assert orders == [];
    }
  }

  method ConnectCall(s: State, ghost calls: seq<Call>, ghost i: nat, chain: seq<nat>, throws: set<nat>)
    returns (ops: seq<Op>)
    requires Legal(calls) && i < |calls| && calls[i] == Connects(chain, throws) && After(s, calls[..i])
    modifies s`graph
    ensures After(s, calls[..i + 1]) && Made(calls, i, ops)
  {
    hide GraphOf, Extended, Held, Submissions, SignalsOf, EventsOf, RanBy, FirstThrow, GraphAfter, Legal, Errors;
    LegalAt(calls, i);
    ConnectStep(calls, i, s.ran, s.orders);
    ghost var base := if s.graph.Some? then s.graph.value else Fresh();
    var aborted;
    ops, aborted := s.Construct(chain, throws);
    ErrorsOf(ops, |base|, FirstThrow(|chain|, throws), !s.isInstantiated, 0);
  }

  /** What a start means for the specification. */
  lemma StartStep(calls: seq<Call>, i: nat, ran: seq<nat>, orders: seq<seq<nat>>, last: seq<nat>)
    requires i < |calls| && calls[i].Starts? && calls[i].at < i && calls[calls[i].at].Connects?
    requires RanBy(calls[..i], ran, orders)
    requires calls[calls[i].at].chain != [] ==> Topological(GraphOf(Held(calls[..i])), last)
    ensures GraphAfter(calls[..i + 1]) == GraphAfter(calls[..i])
    ensures calls[calls[i].at].chain != [] ==> Held(calls[..i]) != []
    ensures SignalsOf(calls[..i + 1])
         == SignalsOf(calls[..i]) + (if Failed(calls, calls[i].at) then [Error] else []) + [Value]
    ensures if calls[calls[i].at].chain == [] then
              && Submissions(calls[..i + 1]) == Submissions(calls[..i]) && RanBy(calls[..i + 1], ran, orders)
            else
              && Submissions(calls[..i + 1]) == Submissions(calls[..i]) + 1
              && RanBy(calls[..i + 1], ran + WorkAt(GraphOf(Held(calls[..i])), last), orders + [last])
  {
    hide GraphOf, Kept, Held, Submissions, SignalsOf, Topological, WorkAt, Failed;
    CallStep(calls, i);
    if calls[calls[i].at].chain != [] {
      HeldSome(calls, calls[i].at, i);
      RunsStep(GraphOf(Held(calls[..i])), orders, last);
    }
  }

  lemma EventsStep(calls: seq<Call>, i: nat)
    requires i < |calls|
    ensures Submissions(calls[..i + 1]) == Submissions(calls[..i]) ==> EventsOf(calls[..i + 1]) == EventsOf(calls[..i])
    ensures Submissions(calls[..i + 1]) == Submissions(calls[..i]) + 1 ==>
              EventsOf(calls[..i + 1])
              == EventsOf(calls[..i]) + (if Submissions(calls[..i]) > 0 then [] else [Instantiated])
               + [Submitted, Fenced]
  {
    hide Submissions;
    RepeatedStep([Submitted, Fenced], Submissions(calls[..i]));
  }

  method StartCall(s: State, ghost calls: seq<Call>, ghost i: nat, ops: seq<Op>)
    requires Legal(calls) && i < |calls| && calls[i].Starts? && After(s, calls[..i])
    requires calls[i].at < i && Made(calls, calls[i].at, ops)
    modifies s
    ensures After(s, calls[..i + 1])
  {
    hide GraphOf, Held, Submissions, SignalsOf, EventsOf, RanBy, GraphAfter, Legal, Errors, Failed, WorkAt, Topological,
         WellFormed;
    LegalAt(calls, i);
    ghost var before := calls[..i];
    ghost var ran, orders := s.ran, s.orders;
    StartGraph(calls, i);
    s.StartChain(ops);
    ghost var last := if ops == [] then [] else s.orders[|orders|];
    StartStep(calls, i, ran, orders, last);
    EventsStep(calls, i);
    assert ops != [] ==> s.orders == orders + [last];
  }

  lemma StartGraph(calls: seq<Call>, i: nat)
    requires i < |calls| && calls[i].Starts? && calls[i].at < i && calls[calls[i].at].Connects?
    ensures calls[calls[i].at].chain != [] ==>
              var g := GraphAfter(calls[..i]);
              g.Some? && g.value == GraphOf(Held(calls[..i])) && WellFormed(g.value)
  {
    hide GraphOf, Held;
    if calls[calls[i].at].chain != [] {
      HeldSome(calls, calls[i].at, i);
    }
  }

  lemma AfterNone(s: State)
    requires s.graph == None && !s.isInstantiated && !s.isSubmitted
    requires s.events == [] && s.signals == [] && s.ran == [] && s.orders == []
    ensures After(s, [])
  {}

  /**
   * Any sequence of connecting, dropping and starting: the graph is instantiated once, every submission is followed
   * by a fence, and runs the work of all chains that were connected before the first one.
   */
  method RunCalls(calls: seq<Call>) returns (s: State)
    requires Legal(calls)
    ensures After(s, calls)
  {
    hide After, Legal, Made;
    s := new State();
    AfterNone(s);
    var made: seq<seq<Op>> := [];
    var i := 0;
    assert calls[..0] == [];
    while i < |calls|
      invariant i <= |calls| && |made| == i
      invariant forall j | 0 <= j < i :: Made(calls, j, made[j])
      invariant After(s, calls[..i])
    {
      LegalAt(calls, i);
      match calls[i] {
        case Connects(chain, throws) =>
          var ops := ConnectCall(s, calls, i, chain, throws);
          made := made + [ops];
        case Starts(at) =>
          StartCall(s, calls, i, made[at]);
          MadeStart(calls, i);
          made := made + [[]];
      }
      i := i + 1;
    }
    assert calls[..|calls|] == calls;
  }

  lemma MadeStart(calls: seq<Call>, i: nat)
    requires i < |calls| && calls[i].Starts?
    ensures Made(calls, i, [])
  {}

  // ------------------------------------------------------------------------
  // What that means.
  // ------------------------------------------------------------------------

  lemma RunsLast(g: WorkGraph, orders: seq<seq<nat>>)
    requires orders != [] && forall o | o in orders :: Topological(g, o)
    ensures forall o | o in orders[..|orders| - 1] :: Topological(g, o)
    ensures Topological(g, orders[|orders| - 1])
    ensures RunsOf(g, orders) == RunsOf(g, orders[..|orders| - 1]) + WorkAt(g, orders[|orders| - 1])
  {
    hide WorkAt;
    assert orders[|orders| - 1] in orders;
  }

  lemma {:induction false} RunsMultiset(chains: seq<seq<nat>>, orders: seq<seq<nat>>)
    requires forall o | o in orders :: Topological(GraphOf(chains), o)
    ensures multiset(RunsOf(GraphOf(chains), orders)) == multiset(Repeated(Flatten(chains), |orders|))
  {
    hide GraphOf, WorkAt, Flatten, Topological;
    if orders != [] {
      RunsLast(GraphOf(chains), orders);
      RunsMultiset(chains, orders[..|orders| - 1]);
      SubmissionRuns(chains, orders[|orders| - 1]);
    }
  }

  /**
   * Every submission runs every functor of every chain that was connected before the first submission exactly once,
   * whichever of these chains is started and whichever was dropped.
   */
  lemma DroppedChainsRun(calls: seq<Call>, ran: seq<nat>, orders: seq<seq<nat>>)
    requires RanBy(calls, ran, orders)
    ensures multiset(ran) == multiset(Repeated(Flatten(Held(calls)), Submissions(calls)))
  {
    hide GraphOf, WorkAt, Flatten, Topological, Held, Submissions;
    RunsMultiset(Held(calls), orders);
  }

  lemma {:induction false} OneChainRuns(chain: seq<nat>, orders: seq<seq<nat>>)
    requires forall o | o in orders :: Topological(GraphOf([chain]), o)
    ensures RunsOf(GraphOf([chain]), orders) == Repeated(chain, |orders|)
  {
    OneGraph(chain);
    hide GraphOf, WorkAt, Extended, Topological;
    if orders != [] {
      RunsLast(GraphOf([chain]), orders);
      OneChainRuns(chain, orders[..|orders| - 1]);
      ChainRuns(chain, orders[|orders| - 1]);
    }
  }

  lemma OneGraph(chain: seq<nat>)
    ensures GraphOf([chain]) == Extended(Fresh(), chain)
  {
    hide Extended;
    GraphStep([], chain);
    assert [] + [chain] == [chain];
  }

  /** If a single chain was connected before the first submission, every submission runs that chain, in its order. */
  lemma OneChain(calls: seq<Call>, chain: seq<nat>, ran: seq<nat>, orders: seq<seq<nat>>)
    requires RanBy(calls, ran, orders) && Held(calls) == [chain]
    ensures ran == Repeated(chain, Submissions(calls))
  {
    hide GraphOf, Held, Submissions, Topological;
    OneChainRuns(chain, orders);
  }

  /** Connect a chain and start it, k times. */
  function Rounds(chain: seq<nat>, k: nat): (calls: seq<Call>)
    ensures |calls| == 2 * k
  {
    if k == 0 then [] else Rounds(chain, k - 1) + [Connects(chain, {}), Starts(2 * k - 2)]
  }

  lemma {:induction false} RoundsAt(chain: seq<nat>, k: nat)
    ensures forall i | 0 <= i < 2 * k ::
              Rounds(chain, k)[i] == if i % 2 == 0 then Connects(chain, {}) else Starts(i - 1)
  {
    if k > 0 {
      RoundsAt(chain, k - 1);
    }
  }

  lemma RoundsEnd(chain: seq<nat>, k: nat)
    requires k > 0
    ensures var calls := Rounds(chain, k);
            && calls[..2 * k - 2] == Rounds(chain, k - 1) && calls[..2 * k] == calls && |calls| == 2 * k
            && calls[2 * k - 2] == Connects(chain, {}) && calls[2 * k - 1] == Starts(2 * k - 2)
  {}

  /** A round at the end. */
  lemma RoundStep(calls: seq<Call>, i: nat, chain: seq<nat>)
    requires chain != [] && |calls| == i + 2 && calls[i] == Connects(chain, {}) && calls[i + 1] == Starts(i)
    ensures Submissions(calls) == Submissions(calls[..i]) + 1
    ensures Held(calls) == if Submissions(calls[..i]) == 0 then Held(calls[..i]) + [chain] else Held(calls[..i])
    ensures SignalsOf(calls) == SignalsOf(calls[..i]) + [Value]
  {
    hide *;
    RoundFacts(calls, i, chain);
    CallStep(calls, i);
    CallStep(calls, i + 1);
  }

  lemma RoundFacts(calls: seq<Call>, i: nat, chain: seq<nat>)
    requires chain != [] && |calls| == i + 2 && calls[i] == Connects(chain, {}) && calls[i + 1] == Starts(i)
    ensures !Failed(calls, i) && !Submits(calls, i) && Submits(calls, i + 1) && Kept(calls[i]) == chain
    ensures calls[..i + 2] == calls
  {
    hide Submissions, FirstThrow;
    NoThrow(chain);
  }

  lemma {:induction false} RoundsStep(chain: seq<nat>, k: nat)
    requires chain != []
    ensures Submissions(Rounds(chain, k)) == k && Held(Rounds(chain, k)) == if k == 0 then [] else [chain]
    ensures SignalsOf(Rounds(chain, k)) == Repeated([Value], k)
  {
    hide Rounds, Submissions, Held, SignalsOf, Kept, FirstThrow, Repeated;
    if k == 0 {
      RoundsNone(chain);
      NothingYet();
    } else {
      RoundsStep(chain, k - 1);
      RoundsEnd(chain, k);
      NoThrow(chain);
      RoundStep(Rounds(chain, k), 2 * k - 2, chain);
      RepeatedStep([Value], k - 1);
    }
  }

  lemma RoundsNone(chain: seq<nat>)
    ensures Rounds(chain, 0) == [] && Repeated([Value], 0) == []
  {}

  lemma NoThrow(chain: seq<nat>)
    ensures FirstThrow(|chain|, {}) == |chain| && Kept(Connects(chain, {})) == chain
  {
    assert chain[..|chain|] == chain;
  }

  /**
   * Repetitions of one chain: the graph is instantiated once, every submission is followed by a fence,
   * and every functor runs once per repetition, in chain order.
   */
  lemma SameChain(chain: seq<nat>, k: nat, ran: seq<nat>, orders: seq<seq<nat>>)
    requires chain != [] && k > 0 && RanBy(Rounds(chain, k), ran, orders)
    ensures Legal(Rounds(chain, k)) && ran == Repeated(chain, k) && SignalsOf(Rounds(chain, k)) == Repeated([Value], k)
    ensures EventsOf(Rounds(chain, k)) == [Instantiated] + Repeated([Submitted, Fenced], k)
  {
    hide Rounds, Held, Submissions, RanBy, SignalsOf, Kept, FirstThrow;
    RoundsStep(chain, k);
    RoundsAt(chain, k);
    OneChain(Rounds(chain, k), chain, ran, orders);
    NoThrow(chain);
  }

  /** A chain, started, and another one, started. */
  function Later(first: seq<nat>, later: seq<nat>): seq<Call> {
    [Connects(first, {}), Starts(0), Connects(later, {}), Starts(2)]
  }

  lemma LaterHeld(first: seq<nat>, later: seq<nat>)
    requires first != [] && later != []
    ensures Held(Later(first, later)) == [first] && Submissions(Later(first, later)) == 2
  {
    var calls := Later(first, later);
    NoThrow(first);
    assert calls[..0] == [] && calls[..4] == calls;
    hide Held, Submissions, SignalsOf;
    NothingYet();
    CallStep(calls, 0);
    CallStep(calls, 1);
    CallStep(calls, 2);
    CallStep(calls, 3);
  }

  lemma NothingYet()
    ensures Held([]) == [] && Submissions([]) == 0 && SignalsOf([]) == []
  {}

  /** Work that is connected after the graph was instantiated never runs: the first chain runs again instead. */
  lemma LaterChainIgnored(first: seq<nat>, later: seq<nat>, ran: seq<nat>, orders: seq<seq<nat>>)
    requires first != [] && later != [] && RanBy(Later(first, later), ran, orders)
    ensures ran == first + first && (ran == first + later <==> first == later)
  {
    hide RanBy, Later;
    LaterHeld(first, later);
    OneChain(Later(first, later), first, ran, orders);
    Twice(first);
    if first + first == first + later {
      assert (first + first)[|first|..] == (first + later)[|first|..];
    }
  }

  lemma Twice(s: seq<nat>)
    ensures Repeated(s, 2) == s + s
  {
    assert Repeated(s, 1) == [] + s;
  }

  /** Two chains of one functor, of which only the second one is started. */
  function Dropped(a: nat, b: nat): seq<Call> {
    [Connects([a], {}), Connects([b], {}), Starts(1)]
  }

  lemma DroppedHeld(a: nat, b: nat)
    ensures Held(Dropped(a, b)) == [[a], [b]] && Submissions(Dropped(a, b)) == 1
  {
    var calls := Dropped(a, b);
    NoThrow([a]);
    NoThrow([b]);
    assert calls[..0] == [] && calls[..3] == calls;
    hide Held, Submissions, SignalsOf;
    NothingYet();
    CallStep(calls, 0);
    CallStep(calls, 1);
    CallStep(calls, 2);
  }

  lemma DroppedGraph(a: nat, b: nat)
    ensures GraphOf([[a], [b]]) == [Node(None, {}), Node(Some(a), {0}), Node(Some(b), {0})]
  {
    OneGraph([a]);
    hide GraphOf, Extended;
    GraphStep([[a]], [b]);
    ExtendedNodes(Fresh(), [a]);
    ExtendedNodes(Extended(Fresh(), [a]), [b]);
    var g, g' := Extended(Fresh(), [a]), Extended(Extended(Fresh(), [a]), [b]);
    assert [[a]] + [[b]] == [[a], [b]];
    assert g[..1] == Fresh() && g[1 + 0] == Node(Some(a), {0});
    assert g'[..2] == g && g'[2 + 0] == Node(Some(b), {0});
    assert g == Fresh() + [g[1]] && g' == g + [g'[2]];
  }

  /** The dropped one runs as well, before or after the other one. */
  lemma DroppedEitherWay(a: nat, b: nat)
    ensures RanBy(Dropped(a, b), [a, b], [[0, 1, 2]]) && RanBy(Dropped(a, b), [b, a], [[0, 2, 1]])
  {
    DroppedHeld(a, b);
    DroppedGraph(a, b);
    hide GraphOf, Held, Submissions, Dropped;
    ThreeNodes(GraphOf([[a], [b]]), a, b, 1, 2);
    ThreeNodes(GraphOf([[a], [b]]), a, b, 2, 1);
  }

  lemma ThreeWork(g: WorkGraph, i: nat, j: nat)
    ensures RunsOf(g, [[0, i, j]]) == NodeWork(g, 0) + NodeWork(g, i) + NodeWork(g, j)
  {
    hide NodeWork, WorkAt;
    NoneWork(g);
    WorkStep(g, [0]);
    WorkStep(g, [0, i]);
    WorkStep(g, [0, i, j]);
    assert [0][..0] == [] && [0, i][..1] == [0] && [0, i, j][..2] == [0, i];
    var orders: seq<seq<nat>> := [[0, i, j]];
    assert orders[..0] == [];
    assert RunsOf(g, []) == [];
  }

  lemma ThreeOrder(g: WorkGraph, i: nat, j: nat)
    requires |g| == 3 && 1 <= i < 3 && 1 <= j < 3 && i != j
    requires g[0].preds == {} && g[i].preds == g[j].preds == {0}
    ensures Topological(g, [0, i, j])
  {
    var order: seq<nat> := [0, i, j];
    assert order[..1] == [0] && order[..2] == [0, i];
  }

  lemma ThreeNodes(g: WorkGraph, a: nat, b: nat, i: nat, j: nat)
    requires g == [Node(None, {}), Node(Some(a), {0}), Node(Some(b), {0})] && 1 <= i < 3 && 1 <= j < 3 && i != j
    ensures Topological(g, [0, i, j])
    ensures RunsOf(g, [[0, i, j]]) == if i == 1 then [a, b] else [b, a]
  {
    hide Topological, RunsOf;
    ThreeOrder(g, i, j);
    ThreeWork(g, i, j);
  }

  /** The number of starts. */
  function Started(calls: seq<Call>): nat {
    if calls == [] then 0 else Started(calls[..|calls| - 1]) + if calls[|calls| - 1].Starts? then 1 else 0
  }

  /** A chain is started whose construction threw. */
  predicate StartsFailed(calls: seq<Call>) {
    exists i | 0 <= i < |calls| :: calls[i].Starts? && calls[i].at < i && Failed(calls, calls[i].at)
  }

  lemma {:induction false} SignalCount(calls: seq<Call>, n: nat)
    requires Legal(calls) && n <= |calls|
    ensures |SignalsOf(calls[..n])| >= Started(calls[..n])
    ensures |SignalsOf(calls[..n])| == Started(calls[..n]) <==>
            forall i | 0 <= i < n :: calls[i].Starts? ==> calls[i].at < i && !Failed(calls, calls[i].at)
  {
    hide Legal, Failed, Submissions, Held;
    if n > 0 {
      SignalCount(calls, n - 1);
      CallStep(calls, n - 1);
      LegalAt(calls, n - 1);
      assert calls[..n][..n - 1] == calls[..n - 1];
    } else {
      assert calls[..0] == [];
    }
  }

  /** Every start completes exactly once if and only if none of the started chains was connected with an error. */
  lemma CompletesOnce(calls: seq<Call>)
    requires Legal(calls)
    ensures |SignalsOf(calls)| == Started(calls) <==> !StartsFailed(calls)
  {
    hide Failed, SignalsOf, Started, Submissions;
    SignalCount(calls, |calls|);
    assert calls[..|calls|] == calls;
    forall i | 0 <= i < |calls| && calls[i].Starts? ensures calls[i].at < i {
      LegalAt(calls, i);
    }
  }

  /** A chain whose last node throws: it is submitted without that node, and completes with an error and a value. */
  lemma ErrorAndValue(chain: seq<nat>)
    requires chain != []
    ensures var calls := [Connects(chain, {|chain| - 1}), Starts(0)];
            && Legal(calls) && SignalsOf(calls) == [Error, Value] && Held(calls) == [chain[..|chain| - 1]]
            && EventsOf(calls) == [Instantiated, Submitted, Fenced]
  {
    var calls := [Connects(chain, {|chain| - 1}), Starts(0)];
    assert FirstThrow(|chain|, {|chain| - 1}) == |chain| - 1;
    assert calls[..0] == [] && calls[..2] == calls;
    hide Held, Submissions, SignalsOf, FirstThrow;
    NothingYet();
    CallStep(calls, 0);
    CallStep(calls, 1);
    RepeatedStep([Submitted, Fenced], 0);
  }
}
