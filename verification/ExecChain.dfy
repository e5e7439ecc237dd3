/** Chains of work over execution space instances and the host, and the fences that they emit. */
module ExecChain {
  import opened Env
  import opened Wrappers

  /** The query for an execution space instance, and one that the run loop answers. */
  const GET_EXEC := Tag(0, true)
  const GET_SCHEDULER := Tag(1, true)

  /** Where work runs: on an instance, or on the host. */
  datatype Place = Device(inst: nat) | Host

  datatype Step = Work(id: nat) | Transition(to: Place)

  /** Work and transitions in order, either waited for or handed to a receiver that knows no instance. */
  datatype Chain = Chain(start: Place, steps: seq<Step>, waited: bool) {

    function PlaceAt(i: nat): Place
      requires i <= |steps|
    {
      if i == 0 then start
      else match steps[i - 1]
        case Work(id) => PlaceAt(i - 1)
        case Transition(to) => to
    }

    /** The work among the first i steps. */
    function Works(i: nat): seq<nat>
      requires i <= |steps|
    {
      if i == 0 then [] else Works(i - 1) + if steps[i - 1].Work? then [steps[i - 1].id] else []
    }

    /** The environment of the receiver that the first i steps are connected to. All its upserts are well-formed. */
    function EnvAt(i: nat): (e: Env)
      requires i <= |steps|
      ensures Settled(e, GET_EXEC)
      decreases |steps| - i
    {
      var place := PlaceAt(i);
      if i == |steps| then
        var loop := Other(map[GET_SCHEDULER := 0]);
        if waited && place.Device? then Pair(Prop(GET_EXEC, place.inst), loop) else loop
      else
        var forwarded := FwdEnv(EnvAt(i + 1));
        if place.Device? then
          SettledJoin(GET_EXEC, forwarded, place.inst);
          UpsertOrJoin(GET_EXEC, forwarded, place.inst).env
        else forwarded
    }

    /** Leaving an instance is not fenced when the next receiver on a device names the same instance. */
    function Skip(i: nat): bool
      requires i < |steps| && steps[i].Transition? && PlaceAt(i).Device?
    {
      steps[i].to.Device? && FwdEnv(EnvAt(i + 1)).Query(GET_EXEC) == Some(PlaceAt(i).inst)
    }

    /** The number of works among the first i steps. */
    function WorkCount(i: nat): nat
      requires i <= |steps|
    {
      if i == 0 then 0 else WorkCount(i - 1) + if steps[i - 1].Work? then 1 else 0
    }

    /** Something after the first i steps knows the instance. */
    predicate Known(i: nat) {
      i < |steps| || waited
    }
  }

  /** On a device, the environment names the instance that the work is on. */
  lemma {:induction false} EnvNamesInstance(c: Chain, i: nat)
    requires i <= |c.steps|
    ensures c.PlaceAt(i).Device? ==> c.EnvAt(i).Query(GET_EXEC) == if c.Known(i) then Some(c.PlaceAt(i).inst) else None
    decreases |c.steps| - i
  {
    if i < |c.steps| {
      EnvNamesInstance(c, i + 1);
      if c.PlaceAt(i).Device? {
        SettledJoin(GET_EXEC, c.EnvAt(i + 1), c.PlaceAt(i).inst);
        SettledJoin(GET_EXEC, FwdEnv(c.EnvAt(i + 1)), c.PlaceAt(i).inst);
        JoinUpdates(GET_EXEC, FwdEnv(c.EnvAt(i + 1)), c.PlaceAt(i).inst, GET_EXEC);
      }
    }
  }

  /** No receiver environment of a chain hides the run loop from the scheduler query. */
  lemma {:induction false} EnvAnswersScheduler(c: Chain, i: nat)
    requires i <= |c.steps|
    ensures Nested(c.EnvAt(i)) && c.EnvAt(i).Query(GET_SCHEDULER) == Some(0)
    decreases |c.steps| - i
  {
    if i < |c.steps| {
      EnvAnswersScheduler(c, i + 1);
      if c.PlaceAt(i).Device? {
        var e, inst := FwdEnv(c.EnvAt(i + 1)), c.PlaceAt(i).inst;
        SettledJoin(GET_EXEC, c.EnvAt(i + 1), inst);
        UpsertOutcome(GET_EXEC, e, inst);
        NestedUpdates(GET_EXEC, e, inst);
      }
    }
  }

  /** The place after i steps is that of the last transition among them, or the start. */
  lemma {:induction false} PlaceIsLast(c: Chain, i: nat, k: nat)
    requires k <= i <= |c.steps| && (k > 0 ==> c.steps[k - 1].Transition?)
    requires forall l | k <= l < i :: c.steps[l].Work?
    ensures c.PlaceAt(i) == if k == 0 then c.start else c.steps[k - 1].to
  {
    if k < i {
      PlaceIsLast(c, i - 1, k);
    }
  }

  /** The work among the first i steps has every work, on the host or on an instance, at its position in the chain. */
  lemma {:induction false} WorksInOrder(c: Chain, i: nat)
    requires i <= |c.steps|
    ensures |c.Works(i)| == c.WorkCount(i)
    ensures forall k | 0 <= k < i && c.steps[k].Work? ::
              c.WorkCount(k) < c.WorkCount(i) && c.Works(i)[c.WorkCount(k)] == c.steps[k].id
  {
    if i > 0 {
      WorksInOrder(c, i - 1);
    }
  }

  // ------------------------------------------------------------------------
  // The fences of a chain.
  // ------------------------------------------------------------------------

  datatype Event = Launched(inst: nat, id: nat) | Ran(id: nat) | Fenced(inst: nat)

  /** What step i emits when nothing throws. */
  function Emits(c: Chain, i: nat): (es: seq<Event>)
    requires i < |c.steps|
  {
    match c.PlaceAt(i)
    case Host => if c.steps[i].Work? then [Ran(c.steps[i].id)] else []
    case Device(a) =>
      if c.steps[i].Work? then
        [Launched(a, c.steps[i].id)] + if c.EnvAt(i + 1).Queryable(GET_EXEC) then [] else [Fenced(a)]
      else if c.Skip(i) then []
      else [Fenced(a)]
  }

  /** What the end of the chain emits when it gets a value or an error. */
  function EmitsAtEnd(c: Chain): (es: seq<Event>) {
    var place := c.PlaceAt(|c.steps|);
    if c.waited && place.Device? then [Fenced(place.inst)] else []
  }

  /** What the steps from i on emit, and the end. */
  function EmitsFrom(c: Chain, i: nat): (es: seq<Event>)
    requires i <= |c.steps|
    decreases |c.steps| - i
  {
    if i < |c.steps| then Emits(c, i) + EmitsFrom(c, i + 1) else EmitsAtEnd(c)
  }

  predicate HasFence(es: seq<Event>) {
    exists k :: 0 <= k < |es| && es[k].Fenced?
  }

  /** The step leaves the instance that the work before it is on. */
  predicate Leaves(c: Chain, i: nat)
    requires i < |c.steps|
  {
    c.PlaceAt(i).Device? && c.steps[i].Transition? && c.steps[i].to != c.PlaceAt(i)
  }

  /**
   * Fence elision is exact: before the last step, a fence is emitted if and only if a transition leaves an
   * instance, and then that instance is the one that is fenced.
   */
  lemma StepFences(c: Chain, i: nat)
    requires i < |c.steps| && c.Known(i + 1)
    ensures HasFence(Emits(c, i)) <==> Leaves(c, i)
    ensures Leaves(c, i) ==> Emits(c, i) == [Fenced(c.PlaceAt(i).inst)]
  {
    EnvNamesInstance(c, i + 1);
    if Leaves(c, i) {
      assert Emits(c, i)[0].Fenced?;
    }
  }

  /** A last step that hands over to a receiver without instance is always fenced. */
  lemma LastStepFences(c: Chain, i: nat)
    requires i + 1 == |c.steps| && !c.waited && c.PlaceAt(i).Device?
    ensures HasFence(Emits(c, i))
  {
    EnvNamesInstance(c, i + 1);
    if c.PlaceAt(i + 1).Device? {
      assert c.EnvAt(i + 1).Query(GET_EXEC) == None;
    }
    assert c.EnvAt(i + 1).Query(GET_EXEC) == None;
    var es := Emits(c, i);
    assert es[|es| - 1].Fenced?;
  }

  /** What the steps from i up to j emit. */
  function EmitsBetween(c: Chain, i: nat, j: nat): (es: seq<Event>)
    requires i <= j <= |c.steps|
  {
    if i == j then [] else EmitsBetween(c, i, j - 1) + Emits(c, j - 1)
  }

  lemma HasFenceConcat(s: seq<Event>, t: seq<Event>)
    ensures HasFence(s + t) <==> HasFence(s) || HasFence(t)
  {
    if HasFence(s) {
      var k :| 0 <= k < |s| && s[k].Fenced?;
      assert (s + t)[k].Fenced?;
    }
    if HasFence(t) {
      var k :| 0 <= k < |t| && t[k].Fenced?;
      assert (s + t)[|s| + k].Fenced?;
    }
  }

  /** Between two works, fences are emitted if and only if some transition in between leaves an instance. */
  lemma {:induction false} FencesBetween(c: Chain, i: nat, j: nat)
    requires i <= j <= |c.steps| && c.Known(j)
    ensures HasFence(EmitsBetween(c, i, j)) <==> exists k :: i <= k < j && Leaves(c, k)
  {
    if i < j {
      FencesBetween(c, i, j - 1);
      StepFences(c, j - 1);
      HasFenceConcat(EmitsBetween(c, i, j - 1), Emits(c, j - 1));
    }
  }

  lemma {:induction false} EmitsFirst(c: Chain, i: nat, j: nat)
    requires i < j <= |c.steps|
    ensures EmitsBetween(c, i, j) == Emits(c, i) + EmitsBetween(c, i + 1, j)
  {
    hide Emits;
    if i + 1 < j {
      EmitsFirst(c, i, j - 1);
    }
  }

  lemma {:induction false} EmitsWhole(c: Chain, i: nat)
    requires i <= |c.steps|
    ensures EmitsFrom(c, i) == EmitsBetween(c, i, |c.steps|) + EmitsAtEnd(c)
    decreases |c.steps| - i
  {
    hide Emits;
    if i < |c.steps| {
      EmitsWhole(c, i + 1);
      EmitsFirst(c, i, |c.steps|);
    }
  }

  // ------------------------------------------------------------------------
  // All fences and all runs of a chain.
  // ------------------------------------------------------------------------

  /** The instances that are fenced, in order. */
  function FencesOf(es: seq<Event>): seq<nat> {
    if es == [] then []
    else
      var last := es[|es| - 1];
      FencesOf(es[..|es| - 1]) + if last.Fenced? then [last.inst] else []
  }

  lemma {:induction false} FencesConcat(s: seq<Event>, t: seq<Event>)
    ensures FencesOf(s + t) == FencesOf(s) + FencesOf(t)
  {
    if t == [] {
      assert s + t == s;
    } else {
      FencesConcat(s, t[..|t| - 1]);
      assert (s + t)[..|s + t| - 1] == s + t[..|t| - 1];
    }
  }

  lemma FencesOne(e: Event)
    ensures FencesOf([]) == [] && FencesOf([e]) == if e.Fenced? then [e.inst] else []
  {
    assert [e][..0] == [];
  }

  /** The instances that the steps from i up to j leave, in order. */
  function LeftBy(c: Chain, i: nat, j: nat): seq<nat>
    requires i <= j <= |c.steps|
  {
    if i == j then [] else LeftBy(c, i, j - 1) + if Leaves(c, j - 1) then [c.PlaceAt(j - 1).inst] else []
  }

  lemma StepFencesOf(c: Chain, i: nat)
    requires i < |c.steps|
    ensures c.Known(i + 1) ==> FencesOf(Emits(c, i)) == if Leaves(c, i) then [c.PlaceAt(i).inst] else []
    ensures !c.Known(i + 1) ==> FencesOf(Emits(c, i)) == if c.PlaceAt(i).Device? then [c.PlaceAt(i).inst] else []
  {
    EnvNamesInstance(c, i + 1);
    if c.PlaceAt(i).Device? {
      var a := c.PlaceAt(i).inst;
      FencesOne(Fenced(a));
      if c.steps[i].Work? {
        FencesOne(Launched(a, c.steps[i].id));
        FencesConcat([Launched(a, c.steps[i].id)], [Fenced(a)]);
        FencesConcat([Launched(a, c.steps[i].id)], []);
      } else if !c.Known(i + 1) && c.PlaceAt(i + 1).Host? {
        assert c.steps[i].to == Host;
      }
    } else if c.steps[i].Work? {
      FencesOne(Ran(c.steps[i].id));
    }
  }

  lemma {:induction false} FencesAreLeft(c: Chain, i: nat, j: nat)
    requires i <= j <= |c.steps| && c.Known(j)
    ensures FencesOf(EmitsBetween(c, i, j)) == LeftBy(c, i, j)
  {
    hide Emits, Leaves;
    if i < j {
      FencesAreLeft(c, i, j - 1);
      StepFencesOf(c, j - 1);
      FencesConcat(EmitsBetween(c, i, j - 1), Emits(c, j - 1));
    }
  }

  /**
   * All fences of a chain that completes with a value: one for every step that leaves an instance, on that instance,
   * and one at the end for the instance that is waited for. A chain that nothing waits for has its last step fenced
   * if that step is on an instance.
   */
  lemma AllFences(c: Chain)
    ensures var n := |c.steps|;
            FencesOf(EmitsFrom(c, 0))
            == if c.waited then LeftBy(c, 0, n) + (if c.PlaceAt(n).Device? then [c.PlaceAt(n).inst] else [])
               else if n == 0 then []
               else LeftBy(c, 0, n - 1) + if c.PlaceAt(n - 1).Device? then [c.PlaceAt(n - 1).inst] else []
  {
    hide Emits, Leaves;
    var n := |c.steps|;
    EmitsWhole(c, 0);
    FencesConcat(EmitsBetween(c, 0, n), EmitsAtEnd(c));
    FencesOne(Fenced(if c.PlaceAt(n).Device? then c.PlaceAt(n).inst else 0));
    if c.waited {
      FencesAreLeft(c, 0, n);
    } else if n > 0 {
      FencesAreLeft(c, 0, n - 1);
      StepFencesOf(c, n - 1);
      FencesConcat(EmitsBetween(c, 0, n - 1), Emits(c, n - 1));
    }
  }

  /** The end is the last event, and the only one behind the steps. */
  lemma EndEvents(c: Chain)
    requires c.waited
    ensures EmitsFrom(c, 0)
         == EmitsBetween(c, 0, |c.steps|)
          + match c.PlaceAt(|c.steps|) case Device(a) => [Fenced(a)] case Host => []
  {
    hide Emits, EmitsFrom, EmitsBetween;
    EmitsWhole(c, 0);
  }

  /** A work that ran at a place. */
  datatype Run = Run(place: Place, id: nat)

  function EventRun(e: Event): seq<Run> {
    match e
    case Launched(a, id) => [Run(Device(a), id)]
    case Ran(id) => [Run(Host, id)]
    case Fenced(a) => []
  }

  /** The works among the events, in order. */
  function RunsOf(es: seq<Event>): seq<Run> {
    if es == [] then [] else RunsOf(es[..|es| - 1]) + EventRun(es[|es| - 1])
  }

  function IdsOf(runs: seq<Run>): (ids: seq<nat>)
    ensures |ids| == |runs|
  {
    seq(|runs|, i requires 0 <= i < |runs| => runs[i].id)
  }

  lemma {:induction false} RunsConcat(s: seq<Event>, t: seq<Event>)
    ensures RunsOf(s + t) == RunsOf(s) + RunsOf(t)
  {
    hide EventRun;
    if t == [] {
      assert s + t == s;
    } else {
      RunsConcat(s, t[..|t| - 1]);
      assert (s + t)[..|s + t| - 1] == s + t[..|t| - 1];
    }
  }

  lemma RunsOne(e: Event)
    ensures RunsOf([]) == [] && RunsOf([e]) == EventRun(e)
  {
    hide EventRun;
    assert [e][..0] == [];
  }

  /** A step runs its work, at its place. */
  lemma StepRuns(c: Chain, i: nat)
    requires i < |c.steps|
    ensures RunsOf(Emits(c, i)) == if c.steps[i].Work? then [Run(c.PlaceAt(i), c.steps[i].id)] else []
  {
    if c.PlaceAt(i).Device? {
      var a := c.PlaceAt(i).inst;
      RunsOne(Fenced(a));
      if c.steps[i].Work? {
        RunsOne(Launched(a, c.steps[i].id));
        RunsConcat([Launched(a, c.steps[i].id)], [Fenced(a)]);
        RunsConcat([Launched(a, c.steps[i].id)], []);
      }
    } else if c.steps[i].Work? {
      RunsOne(Ran(c.steps[i].id));
    }
  }

  /** The places and works of the first i steps, in order. */
  function PlacedWorks(c: Chain, i: nat): seq<Run>
    requires i <= |c.steps|
  {
    if i == 0 then []
    else PlacedWorks(c, i - 1) + if c.steps[i - 1].Work? then [Run(c.PlaceAt(i - 1), c.steps[i - 1].id)] else []
  }

  lemma {:induction false} EventsRunPlaced(c: Chain, i: nat)
    requires i <= |c.steps|
    ensures RunsOf(EmitsBetween(c, 0, i)) == PlacedWorks(c, i)
  {
    hide Emits, EventRun;
    if i > 0 {
      EventsRunPlaced(c, i - 1);
      StepRuns(c, i - 1);
      RunsConcat(EmitsBetween(c, 0, i - 1), Emits(c, i - 1));
    }
  }

  lemma {:induction false} PlacedInOrder(c: Chain, i: nat)
    requires i <= |c.steps|
    ensures var runs := PlacedWorks(c, i);
            && |runs| == c.WorkCount(i) && IdsOf(runs) == c.Works(i)
            && forall k | 0 <= k < i && c.steps[k].Work? ::
                 c.WorkCount(k) < c.WorkCount(i) && runs[c.WorkCount(k)] == Run(c.PlaceAt(k), c.steps[k].id)
  {
    if i > 0 {
      PlacedInOrder(c, i - 1);
    }
  }

  /** The events have every work once, at its position in the chain and at its place. */
  lemma RunsInOrder(c: Chain, i: nat)
    requires i <= |c.steps|
    ensures var runs := RunsOf(EmitsBetween(c, 0, i));
            && |runs| == c.WorkCount(i) && IdsOf(runs) == c.Works(i)
            && forall k | 0 <= k < i && c.steps[k].Work? ::
                 c.WorkCount(k) < c.WorkCount(i) && runs[c.WorkCount(k)] == Run(c.PlaceAt(k), c.steps[k].id)
  {
    hide RunsOf, EmitsBetween, PlacedWorks, IdsOf;
    EventsRunPlaced(c, i);
    PlacedInOrder(c, i);
  }

  lemma RunsAtEnd(c: Chain, i: nat)
    requires i <= |c.steps|
    ensures IdsOf(RunsOf(EmitsBetween(c, 0, i) + EmitsAtEnd(c))) == c.Works(i)
  {
    hide Emits;
    RunsInOrder(c, i);
    RunsConcat(EmitsBetween(c, 0, i), EmitsAtEnd(c));
    RunsOne(Fenced(if c.PlaceAt(|c.steps|).Device? then c.PlaceAt(|c.steps|).inst else 0));
  }

  /** A chain that never leaves its instance emits one fence, at the very end. */
  lemma {:induction false} SingleInstance(c: Chain, i: nat)
    requires i <= |c.steps| && c.waited && c.start.Device?
    requires forall k | 0 <= k < |c.steps| && c.steps[k].Transition? :: c.steps[k].to == c.start
    ensures c.PlaceAt(i) == c.start && !HasFence(EmitsBetween(c, 0, i))
    ensures EmitsFrom(c, |c.steps|) == [Fenced(c.start.inst)]
  {
    SinglePlace(c, i);
    SinglePlace(c, |c.steps|);
    forall k | 0 <= k < i ensures !Leaves(c, k) {
      SinglePlace(c, k);
    }
    FencesBetween(c, 0, i);
  }

  lemma {:induction false} SinglePlace(c: Chain, i: nat)
    requires i <= |c.steps|
    requires forall k | 0 <= k < |c.steps| && c.steps[k].Transition? :: c.steps[k].to == c.start
    ensures c.PlaceAt(i) == c.start
  {
    if i > 0 {
      SinglePlace(c, i - 1);
    }
  }

  // ------------------------------------------------------------------------
  // Running a chain on asynchronous instances.
  // ------------------------------------------------------------------------

  datatype Launch = Launch(inst: nat, id: nat)

  function Ids(ls: seq<Launch>): (ids: seq<nat>)
    ensures |ids| == |ls|
  {
    seq(|ls|, i requires 0 <= i < |ls| => ls[i].id)
  }

  /** No earlier launch is on the same instance. */
  predicate Oldest(ls: seq<Launch>, i: nat)
    requires i < |ls|
  {
    forall j | 0 <= j < i :: ls[j].inst != ls[i].inst
  }

  /** On a single instance only the first launch may finish. */
  lemma OnlyFirst(ls: seq<Launch>, inst: nat, i: nat)
    requires i < |ls| && forall x | x in ls :: x.inst == inst
    ensures Oldest(ls, i) <==> i == 0
  {
    assert ls[0] in ls && ls[i] in ls;
  }

  lemma DropFirst(ls: seq<Launch>)
    requires ls != []
    ensures ls[..0] + ls[1..] == ls[1..] && Ids(ls) == [ls[0].id] + Ids(ls[1..])
    ensures forall x | x in ls[1..] :: x in ls
  {}

  class Runtime {
    var pending: seq<Launch>
    var finished: seq<nat>
    var events: seq<Event>

    constructor ()
      ensures pending == [] && finished == [] && events == []
    {
      pending, finished, events := [], [], [];
    }

    /** At most the given instance is busy. */
    ghost predicate Only(inst: nat)
      reads this
    {
      forall x | x in pending :: x.inst == inst
    }

    /** The order in which the work so far finishes. */
    ghost function History(): seq<nat>
      reads this
    {
      finished + Ids(pending)
    }

    /** Any instances finish any number of their oldest launches. */
    method Progress(ghost inst: nat)
      requires Only(inst)
      modifies this`pending, this`finished
      ensures Only(inst) && History() == old(History())
      ensures old(pending) == [] ==> pending == []
    {
      while pending != []
        invariant Only(inst) && History() == old(History())
        invariant old(pending) == [] ==> pending == []
        decreases |pending|
      {
        if * {
          break;
        }
        FinishOne(inst);
      }
    }

    /** Some instance finishes its oldest launch. */
    method FinishOne(ghost inst: nat)
      requires pending != [] && Only(inst)
      modifies this`pending, this`finished
      ensures Only(inst) && History() == old(History()) && |pending| == |old(pending)| - 1
    {
      OnlyFirst(pending, inst, 0);
      var i :| 0 <= i < |pending| && Oldest(pending, i);
      OnlyFirst(pending, inst, i);
      DropFirst(pending);
      finished := finished + [pending[i].id];
      pending := pending[..i] + pending[i + 1..];
    }

    method Execute(inst: nat, id: nat)
      requires Only(inst)
      modifies this
      ensures Only(inst) && History() == old(History()) + [id] && events == old(events) + [Launched(inst, id)]
    {
      pending := pending + [Launch(inst, id)];
      events := events + [Launched(inst, id)];
      Progress(inst);
    }

    method Fence(inst: nat, ghost only: nat)
      requires Only(only)
      modifies this
      ensures Only(only) && History() == old(History()) && events == old(events) + [Fenced(inst)]
      ensures inst == only || old(pending) == [] ==> pending == []
    {
      events := events + [Fenced(inst)];
      while exists x | x in pending :: x.inst == inst
        invariant Only(only) && History() == old(History()) && events == old(events) + [Fenced(inst)]
        invariant old(pending) == [] ==> pending == []
        decreases |pending|
      {
        FinishOne(only);
      }
      EmptyOrMember(pending);
    }

    method RunOnHost(id: nat)
      requires pending == []
      modifies this
      ensures pending == [] && History() == old(History()) + [id] && events == old(events) + [Ran(id)]
    {
      finished := finished + [id];
      events := events + [Ran(id)];
    }
  }

  /** The completion that reaches the end of the chain. */
  datatype Signal = Value | Error(step: nat)

  class Operation {
    const chain: Chain
    const rt: Runtime
    var signals: seq<Signal>

    constructor (chain: Chain)
      ensures this.chain == chain && signals == [] && fresh(rt)
      ensures rt.pending == [] && rt.finished == [] && rt.events == []
    {
      this.chain := chain;
      this.rt := new Runtime();
      this.signals := [];
    }

    /** The first i steps are done or in flight, and only on the instance that comes next. */
    ghost predicate Reached(i: nat)
      reads this, rt
    {
      && i <= |chain.steps| && rt.History() == chain.Works(i)
      && (if chain.PlaceAt(i).Device? && chain.Known(i) then rt.Only(chain.PlaceAt(i).inst) else rt.pending == [])
    }

    /** The instance that the end of the chain waits for, if there is one, has just been fenced. */
    ghost predicate Awaited()
      reads rt
    {
      var place := chain.PlaceAt(|chain.steps|);
      chain.waited && place.Device? ==> rt.events != [] && rt.events[|rt.events| - 1] == Fenced(place.inst)
    }

    /** The end of the chain is told, after the fence, and of a value only when nothing is in flight. */
    method Complete(signal: Signal)
      requires signals == [] && Awaited() && (signal == Value ==> rt.pending == [])
      modifies this`signals
      ensures signals == [signal]
    {
      signals := signals + [signal];
    }

    /** The receiver behind step k - 1 gets an error from step at. Nothing is launched any more. */
    method SetError(k: nat, at: nat)
      requires at < k <= |chain.steps| && signals == []
      requires if chain.PlaceAt(at).Device? then rt.Only(chain.PlaceAt(at).inst) else rt.pending == []
      modifies this`signals, rt
      ensures signals == [Error(at)] && rt.History() == old(rt.History())
      ensures rt.events == old(rt.events) + EmitsAtEnd(chain)
      ensures if chain.PlaceAt(at).Device? then rt.Only(chain.PlaceAt(at).inst) else rt.pending == []
      ensures chain.waited && chain.PlaceAt(|chain.steps|) == chain.PlaceAt(at) ==> rt.pending == []
      decreases |chain.steps| - k
    {
      ghost var only := if chain.PlaceAt(at).Device? then chain.PlaceAt(at).inst else 0;
      if k < |chain.steps| {
        SetError(k + 1, at);
      } else {
        if chain.waited && chain.PlaceAt(k).Device? {
          rt.Fence(chain.PlaceAt(k).inst, only);
        }
        Complete(Error(at));
      }
    }

    /**
     * What the end of the chain has seen, when the receiver behind the first i steps got its value after the
     * given events: exactly one signal. A value means that no work throws, and that all of it is done, in chain order.
     * An error comes from the first work that throws. Everything before it was launched, and nothing behind it. What
     * is still in flight is on the instance of that step. It is also done if the step was on the host or on the
     * instance that is waited for. Either way the events are those of the steps that were taken, and of the end.
     */
    ghost predicate Delivered(before: seq<Event>, i: nat, throws: set<nat>)
      reads this, rt
    {
      && i <= |chain.steps| && |signals| == 1
      && match signals[0]
         case Value =>
           && (forall j | i <= j < |chain.steps| && chain.steps[j].Work? :: j !in throws)
           && rt.pending == [] && rt.finished == chain.Works(|chain.steps|)
           && rt.events == before + EmitsFrom(chain, i)
         case Error(at) =>
           && i <= at < |chain.steps| && chain.steps[at].Work? && at in throws
           && (forall j | i <= j < at && chain.steps[j].Work? :: j !in throws)
           && rt.History() == chain.Works(at)
           && rt.events == before + EmitsBetween(chain, i, at) + EmitsAtEnd(chain)
           && (chain.PlaceAt(at).Device? ==> rt.Only(chain.PlaceAt(at).inst))
           && (chain.PlaceAt(at).Host? || (chain.waited && chain.PlaceAt(|chain.steps|) == chain.PlaceAt(at)) ==>
                 rt.pending == [] && rt.finished == chain.Works(at))
    }

    lemma DeliveredLater(before: seq<Event>, i: nat, throws: set<nat>)
      requires i < |chain.steps| && Delivered(before + Emits(chain, i), i + 1, throws)
      requires chain.steps[i].Work? ==> i !in throws
      ensures Delivered(before, i, throws)
    {
      hide Emits;
      if signals[0].Error? {
        EmitsFirst(chain, i, signals[0].step);
      }
    }

    /** The receiver behind the first i steps gets its value. The work of the given steps throws when it is executed. */
    method SetValue(i: nat, throws: set<nat>)
      requires Reached(i) && signals == []
      modifies this`signals, rt
      ensures Delivered(old(rt.events), i, throws)
      decreases |chain.steps| - i
    {
      ghost var before := rt.events;
      if i == |chain.steps| {
        Finish(throws);
        return;
      }
      if chain.steps[i].Work? {
        if i in throws {
          SetError(i + 1, i);
          return;
        }
      }
      hide *;
      RunStep(i);
      SetValue(i + 1, throws);
      DeliveredLater(before, i, throws);
    }

    /** The value arrives at the end. */
    method Finish(ghost throws: set<nat>)
      requires Reached(|chain.steps|) && signals == []
      modifies this`signals, rt
      ensures Delivered(old(rt.events), |chain.steps|, throws)
    {
      var n := |chain.steps|;
      if chain.waited && chain.PlaceAt(n).Device? {
        rt.Fence(chain.PlaceAt(n).inst, chain.PlaceAt(n).inst);
      }
      Complete(Value);
    }

    /** One step that does not throw. */
    method RunStep(i: nat)
      requires i < |chain.steps| && Reached(i)
      modifies rt
      ensures Reached(i + 1) && rt.events == old(rt.events) + Emits(chain, i)
    {
      EnvNamesInstance(chain, i + 1);
      match chain.steps[i] {
        case Work(id) =>
          match chain.PlaceAt(i) {
            case Device(a) =>
              rt.Execute(a, id);
              if !chain.EnvAt(i + 1).Queryable(GET_EXEC) {
                rt.Fence(a, a);
              }
            case Host =>
              rt.RunOnHost(id);
          }
        case Transition(to) =>
          if chain.PlaceAt(i).Device? && !chain.Skip(i) {
            rt.Fence(chain.PlaceAt(i).inst, chain.PlaceAt(i).inst);
          }
      }
    }

    /** Start the operation. */
    method Start(throws: set<nat>)
      requires signals == [] && rt.pending == [] && rt.finished == []
      modifies this`signals, rt
      ensures Delivered(old(rt.events), 0, throws)
      ensures old(rt.events) <= rt.events
      ensures rt.History() == IdsOf(RunsOf(rt.events[|old(rt.events)|..]))
      ensures signals == [Value] ==> rt.finished == IdsOf(RunsOf(rt.events[|old(rt.events)|..]))
    {
      hide Emits, RunsOf, EmitsAtEnd;
      SetValue(0, throws);
      ghost var es := rt.events[|old(rt.events)|..];
      match signals[0] {
        case Value =>
          EmitsWhole(chain, 0);
          RunsAtEnd(chain, |chain.steps|);
          assert es == EmitsFrom(chain, 0);
        case Error(at) =>
          RunsAtEnd(chain, at);
          assert es == EmitsBetween(chain, 0, at) + EmitsAtEnd(chain);
      }
    }
  }
}
