/** A device with any number of in-order streams. Launched work runs whenever the device likes. */
module Device {
  import opened Vectors
  import opened Tasks
  import opened Schedule

  function StreamIds(items: seq<Item>, stream: nat): set<nat> {
    set x | x in items && x.stream == stream :: x.id
  }

  lemma Single(x: Item, bound: nat)
    requires x.id !in x.waits && x.id < bound && forall w | w in x.waits :: w < bound
    ensures Ordered([x]) && Distinct([x]) && RaceFree([x]) && Below([x], bound) && TasksOf([x]) == [x.task]
  {}

  class Device {
    var memory: Memory
    var pending: seq<Item>
    var next: nat
    /** The number of solution views allocated so far. */
    var views: nat
    /** The streams that the host has waited for, in order. */
    var waits: seq<nat>

    ghost predicate Valid()
      reads this
    {
      Ordered(pending) && Distinct(pending) && RaceFree(pending) && Below(pending, next)
    }

    /** The memory once all pending work is done. */
    ghost function Flushed(): Memory
      reads this
    {
      Run(memory, TasksOf(pending))
    }

    constructor (m: Memory)
      ensures Valid() && memory == m && pending == [] && views == 0 && waits == []
    {
      memory := m;
      pending := [];
      next := 0;
      views := 0;
      waits := [];
    }

    /** A new solution view. No view is ever handed out twice. */
    method Allocate() returns (view: nat)
      modifies this`views
      ensures view == old(views) && views == view + 1
      ensures Valid() == old(Valid()) && Flushed() == old(Flushed())
    {
      view := views;
      views := views + 1;
    }

    /** Some enabled item runs. */
    method Step()
      requires Valid() && pending != []
      modifies this`memory, this`pending
      ensures Valid() && Flushed() == old(Flushed()) && |pending| == old(|pending|) - 1
      ensures forall x | x in pending :: x in old(pending)
    {
      hide Run, Exec, Independent, RaceFree, TasksOf;
      FirstEnabled(pending);
      var i :| 0 <= i < |pending| && Enabled(pending, i);
      RunEnabled(memory, pending, i);
      WithoutKeeps(pending, i);
      memory := Exec(pending[i].task, memory);
      pending := Without(pending, i);
    }

    /** The device makes any amount of progress. */
    method Progress()
      requires Valid()
      modifies this`memory, this`pending
      ensures Valid() && Flushed() == old(Flushed())
      ensures forall x | x in pending :: x in old(pending)
    {
      hide Run, Exec, Independent, RaceFree, TasksOf;
      while pending != []
        invariant Valid() && Flushed() == old(Flushed())
        invariant forall x | x in pending :: x in old(pending)
        decreases |pending|
      {
        if * {
          break;
        }
        Step();
      }
    }

    /** Launch a kernel on a stream. No conflicting kernel may be in flight on another stream. */
    method Launch(stream: nat, t: Task)
      requires Valid()
      requires Clear(pending, stream, [t])
      modifies this`memory, this`pending, this`next
      ensures Valid() && Flushed() == Exec(t, old(Flushed()))
      ensures Grown(old(pending), pending, stream, [t])
    {
      hide Run, Exec, Independent, Ordered, Distinct, RaceFree, TasksOf;
      var items := [Item(next, stream, t, StreamIds(pending, stream))];
      Single(items[0], next + 1);
      assert t in [t];
      Join(pending, items, next, next + 1);
      RunAppend(memory, TasksOf(pending), t);
      pending := pending + items;
      next := next + 1;
      Progress();
    }

    /** Submit a task graph to a stream. */
    method Submit(stream: nat, g: Graph)
      requires Valid() && WellFormed(g) && ConflictOrdered(g)
      requires Clear(pending, stream, Created(g))
      modifies this`memory, this`pending, this`next
      ensures Valid() && Flushed() == Run(old(Flushed()), Created(g))
      ensures Grown(old(pending), pending, stream, Created(g))
    {
      hide Run, Independent, Ordered, Distinct, RaceFree, TasksOf, WellFormed, ConflictOrdered;
      var behind := StreamIds(pending, stream);
      var items := Submitted(g, next, stream, behind, Identity(|g|));
      SubmittedItems(g, next, stream, behind);
      Join(pending, items, next, next + |g|);
      RunConcat(memory, TasksOf(pending), Created(g));
      pending := pending + items;
      next := next + |g|;
      Progress();
    }

    /** Block the host until nothing is pending on the stream. */
    method Fence(stream: nat)
      requires Valid()
      modifies this`memory, this`pending, this`waits
      ensures Valid() && Flushed() == old(Flushed())
      ensures forall x | x in pending :: x in old(pending) && x.stream != stream
      ensures waits == old(waits) + [stream]
    {
      hide Run, Exec, Independent, RaceFree, TasksOf;
      while exists x | x in pending :: x.stream == stream
        invariant Valid() && Flushed() == old(Flushed())
        invariant forall x | x in pending :: x in old(pending)
        invariant waits == old(waits)
        decreases |pending|
      {
        Step();
      }
      waits := waits + [stream];
    }

    /** The host reads a scalar view. */
    method Read(c: Cell) returns (v: real)
      requires forall x | x in pending :: c !in Writes(x.task)
      ensures v == Scalar(Flushed(), c)
    {
      hide Run;
      v := Scalar(memory, c);
      RunFrame(memory, TasksOf(pending), c);
    }

    /** The host writes a scalar view. */
    method Write(c: Cell, v: real)
      requires Valid()
      requires forall x | x in pending :: c !in Reads(x.task) && c !in Writes(x.task)
      modifies this`memory
      ensures Valid() && Flushed() == old(Flushed())[c := [v]]
    {
      RunWrite(memory, TasksOf(pending), c, [v]);
      memory := memory[c := [v]];
    }

    /** A reduction into a host scalar. It returns only when the stream is idle. */
    method HostDot(stream: nat, x: Cell, y: Cell) returns (v: real)
      requires Valid()
      requires Clear(pending, stream, [DotOf(Host, x, y)])
      modifies this`memory, this`pending, this`next, this`waits
      ensures Valid() && Flushed() == Exec(DotOf(Host, x, y), old(Flushed()))
      ensures v == Dot(Get(old(Flushed()), x), Get(old(Flushed()), y))
      ensures forall i | i in pending :: i in old(pending) && i.stream != stream
      ensures waits == old(waits) + [stream]
    {
      hide Run, RaceFree, TasksOf, Dot;
      var t := DotOf(Host, x, y);
      Launch(stream, t);
      Fence(stream);
      assert forall i | i in pending :: i in old(pending) && t in [t] && Independent(i.task, t);
      v := Read(Host);
    }
  }

  /** Data that no task touches may be written before or after. */
  lemma {:induction false} RunWrite(m: Memory, ts: seq<Task>, c: Cell, v: Vec)
    requires forall t | t in ts :: c !in Reads(t) && c !in Writes(t)
    ensures Run(m[c := v], ts) == Run(m, ts)[c := v]
  {
    hide Reads, Writes, Update;
    if ts != [] {
      var init, t := ts[..|ts| - 1], ts[|ts| - 1];
      RunWrite(m, init, c, v);
      var m' := Run(m, init);
      UpdateKeys(t, m');
      UpdateDepends(t, m', m'[c := v]);
    }
  }
}
