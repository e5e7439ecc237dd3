/** The sparse pattern of the heat problem, and what the elements scatter into it. */
module HeatMatrix {
  import opened Vectors
  import opened Csr
  import opened Heat
  import Jacobi

  // ------------------------------------------------------------------------
  // The pattern.
  // ------------------------------------------------------------------------

  function RowStart(hp: Params, i: nat): nat {
    if i == 0 then 0 else if i <= hp.numElems then 3 * i - 1 else hp.NumEntries()
  }

  function RowOf(s: nat): nat {
    (s + 1) / 3
  }

  function ColOf(s: nat): nat {
    (s + 1) / 3 + (s + 1) % 3 - 1
  }

  lemma SlotsOfRow(i: nat)
    ensures forall s: nat :: RowOf(s) == i <==> 3 * i - 1 <= s <= 3 * i + 1
    ensures i > 0 ==> ColOf(3 * i - 1) == i - 1
    ensures ColOf(3 * i) == i && ColOf(3 * i + 1) == i + 1
  {}

  /** Tridiagonal: two slots in the first and in the last row, three in every other row. */
  function HeatPattern(hp: Params): (p: Pattern) {
    Pattern(seq(hp.NumDofs() + 1, i requires 0 <= i => RowStart(hp, i)),
            seq(hp.NumEntries(), s requires 0 <= s => ColOf(s)))
  }

  /** A view whose entries may be written only once each. */
  class WriteOnce {
    var data: seq<nat>
    ghost var left: set<nat>

    constructor (n: nat)
      ensures |data| == n && forall i: nat :: i in left <==> i < n
    {
      data := seq(n, i => 0);
      left := Range(n);
    }

    method Store(i: nat, v: nat)
      requires i < |data| && i in left
      modifies this
      ensures data == old(data)[i := v] && left == old(left) - {i}
    {
      data := data[i := v];
      left := left - {i};
    }
  }

  /** Build the row map, writing every entry once. The middle of it is written by a kernel, in any order. */
  method InitRowMap(hp: Params) returns (rowMap: WriteOnce)
    requires hp.numElems >= 1
    ensures fresh(rowMap) && rowMap.data == HeatPattern(hp).rowMap && rowMap.left == {}
  {
    var numDofs := hp.NumDofs();
    var numEntries := 2 * 2 + (numDofs - 2) * 3;
    hide *;
    PatternData(hp);
    rowMap := new WriteOnce(numDofs + 1);
    rowMap.Store(0, 0);
    var todo := Range(numDofs) - {0};
    while todo != {}
      invariant forall i: nat :: i in todo ==> 0 < i < numDofs
      invariant |rowMap.data| == numDofs + 1 && forall i: nat :: i in rowMap.left <==> i in todo || i == numDofs
      invariant forall i | 0 <= i < numDofs && i !in todo :: rowMap.data[i] == HeatPattern(hp).rowMap[i]
      decreases todo
    {
      var idx: nat :| idx in todo;
      todo := todo - {idx};
      rowMap.Store(idx, 2 + (idx - 1) * 3);
    }
    rowMap.Store(numDofs, numEntries);
  }

  lemma PatternData(hp: Params)
    ensures |HeatPattern(hp).rowMap| == hp.NumDofs() + 1 && |HeatPattern(hp).cols| == hp.NumEntries()
    ensures HeatPattern(hp).rowMap[0] == 0 && HeatPattern(hp).rowMap[hp.NumDofs()] == hp.NumEntries()
    ensures forall i | 1 <= i <= hp.numElems :: HeatPattern(hp).rowMap[i] == 3 * i - 1
    ensures forall s | 0 <= s < hp.NumEntries() :: HeatPattern(hp).cols[s] == ColOf(s)
  {}

  /** The three slots of a row between the first and the last one. */
  method StoreRow(entries: WriteOnce, idx: nat)
    requires 0 < idx && 3 * idx + 1 < |entries.data| && {3 * idx - 1, 3 * idx, 3 * idx + 1} <= entries.left
    modifies entries
    ensures |entries.data| == |old(entries.data)|
    ensures forall s: nat | s < |entries.data| ::
              entries.data[s] == if RowOf(s) == idx then ColOf(s) else old(entries.data)[s]
    ensures forall s: nat :: s in entries.left <==> s in old(entries.left) && RowOf(s) != idx
  {
    hide *;
    SlotsOfRow(idx);
    entries.Store(2 + (idx - 1) * 3, idx - 1);
    entries.Store(2 + (idx - 1) * 3 + 1, idx);
    entries.Store(2 + (idx - 1) * 3 + 2, idx + 1);
  }

  /** The kernel of the rows between the first and the last one, which runs in any order. */
  method StoreMiddle(entries: WriteOnce, n: nat)
    requires n >= 1 && |entries.data| == 3 * n + 1
    requires forall s: nat :: s in entries.left <==> 1 < s < |entries.data|
    modifies entries
    ensures |entries.data| == |old(entries.data)|
    ensures forall s: nat | 1 < s < 3 * n - 1 :: entries.data[s] == ColOf(s)
    ensures entries.data[0] == old(entries.data)[0] && entries.data[1] == old(entries.data)[1]
    ensures forall s: nat :: s in entries.left <==> 3 * n - 1 <= s <= 3 * n && s > 1
  {
    hide *;
    SlotsOfRow(0);
    MiddleSlots(n);
    var todo := Range(n) - {0};
    while todo != {}
      invariant forall i: nat :: i in todo ==> 0 < i < n
      invariant |entries.data| == 3 * n + 1
      invariant entries.data[0] == old(entries.data)[0] && entries.data[1] == old(entries.data)[1]
      invariant forall s: nat | 1 < s < 3 * n - 1 && RowOf(s) !in todo :: entries.data[s] == ColOf(s)
      invariant forall s: nat | s in entries.left :: 1 < s <= 3 * n
      invariant forall s: nat | 1 < s <= 3 * n :: s in entries.left <==> RowOf(s) in todo || RowOf(s) >= n
      decreases todo
    {
      var idx: nat :| idx in todo;
      SlotsOfRow(idx);
      StoreRow(entries, idx);
      todo := todo - {idx};
    }
  }

  lemma EntriesComplete(hp: Params, data: seq<nat>)
    requires hp.numElems >= 1 && |data| == hp.NumEntries()
    requires data[0] == 0 && data[1] == 1
    requires forall s: nat | 1 < s < |data| - 2 :: data[s] == ColOf(s)
    requires data[|data| - 2] == hp.numElems - 1 && data[|data| - 1] == hp.numElems
    ensures data == HeatPattern(hp).cols
  {
    hide ColOf;
    PatternData(hp);
    SlotsOfRow(0);
    SlotsOfRow(hp.numElems);
    assert forall s | 0 <= s < |data| :: data[s] == ColOf(s);
  }

  /** Build the entries, writing every slot once. */
  method InitEntries(hp: Params) returns (entries: WriteOnce)
    requires hp.numElems >= 1
    ensures fresh(entries) && entries.data == HeatPattern(hp).cols && entries.left == {}
  {
    var numDofs := hp.NumDofs();
    var numEntries := 2 * 2 + (numDofs - 2) * 3;
    assert numEntries == hp.NumEntries();
    hide *;
    entries := new WriteOnce(numEntries);
    entries.Store(0, 0);
    entries.Store(1, 1);
    StoreMiddle(entries, hp.numElems);
    entries.Store(numEntries - 2, numDofs - 2);
    entries.Store(numEntries - 1, numDofs - 1);
    EntriesComplete(hp, entries.data);
  }

  lemma MiddleSlots(n: nat)
    ensures forall s: nat :: s + 1 < 3 * n <==> RowOf(s) < n
  {}

  /** Row i owns the slots around 3 i, and slot k of it names column k - 2 i. */
  lemma RowSlots(hp: Params, i: nat)
    requires hp.numElems >= 1 && i <= hp.numElems
    ensures var p := HeatPattern(hp);
            && p.Begin(i) == (if i == 0 then 0 else 3 * i - 1)
            && p.End(i) == (if i == hp.numElems then 3 * i + 1 else 3 * i + 2)
            && forall k | p.Begin(i) <= k < p.End(i) :: p.Col(k) == k - 2 * i
  {
    var p := HeatPattern(hp);
    forall k | p.Begin(i) <= k < p.End(i) ensures p.Col(k) == k - 2 * i {
      assert (k + 1) / 3 == i;
    }
  }

  lemma PatternWellFormed(hp: Params)
    requires hp.numElems >= 1
    ensures HeatPattern(hp).WellFormed() && HeatPattern(hp).Rows() == hp.NumDofs()
  {
    var p := HeatPattern(hp);
    forall i | 0 <= i < p.Rows() ensures p.rowMap[i] <= p.rowMap[i + 1] {
    }
  }

  /** Columns ascend within a row, so that no row names a column twice. */
  lemma PatternSorted(hp: Params, i: nat, k: nat, l: nat)
    requires hp.numElems >= 1 && i <= hp.numElems
    requires HeatPattern(hp).Begin(i) <= k < l < HeatPattern(hp).End(i)
    ensures HeatPattern(hp).Col(k) < HeatPattern(hp).Col(l)
  {
    RowSlots(hp, i);
  }

  lemma PatternDiagonal(hp: Params)
    requires hp.numElems >= 1
    ensures Jacobi.DiagonalStored(HeatPattern(hp))
    ensures forall i: nat | i < hp.NumDofs() :: Jacobi.DiagSlot(HeatPattern(hp), i) == 3 * i
  {
    var p := HeatPattern(hp);
    forall i: nat | i < p.Rows()
      ensures p.Begin(i) <= Jacobi.DiagSlot(p, i) == 3 * i < p.End(i)
      ensures forall k | Jacobi.DiagSlot(p, i) < k < p.End(i) :: p.Col(k) != i
    {
      RowSlots(hp, i);
      assert p.Col(3 * i) == i;
    }
  }

  lemma {:induction false} CoefUnique(p: Pattern, vals: Vec, lo: nat, hi: nat, j: nat, slot: int)
    requires forall k | lo <= k < hi :: p.Col(k) == j <==> k == slot
    ensures CoefSum(p, vals, lo, hi, j) == if lo <= slot < hi then At(vals, slot) else 0.0
  {
    if lo < hi {
      CoefUnique(p, vals, lo, hi - 1, j, slot);
    }
  }

  /** The matrix is tridiagonal, and the entry at row i and column j sits in slot 2 i + j. */
  lemma CoefAt(hp: Params, vals: Vec, i: nat, j: nat)
    requires hp.numElems >= 1 && i <= hp.numElems && j <= hp.numElems
    ensures Coef(HeatPattern(hp), vals, i, j) == if -1 <= i - j <= 1 then At(vals, 2 * i + j) else 0.0
  {
    var p := HeatPattern(hp);
    RowSlots(hp, i);
    CoefUnique(p, vals, p.Begin(i), p.End(i), j, 2 * i + j);
  }

  // ------------------------------------------------------------------------
  // The scatter kernel. Its elements run in parallel, one memory operation at a time.
  // ------------------------------------------------------------------------

  /** Atomic additions of an element value, and plain stores. */
  datatype Op =
    | AddMat(slot: nat, from: nat)
    | AddRhs(dof: nat, from: nat)
    | SetMat(slot: nat, value: real)
    | SetRhs(dof: nat, value: real)

  /** What the thread of an element does, in program order. The first element imposes the boundary condition. */
  function Ops(e: nat): (ops: seq<Op>) {
    [ AddMat(3 * e, 4 * e), AddMat(3 * e + 1, 4 * e + 1), AddMat(3 * e + 2, 4 * e + 2), AddMat(3 * e + 3, 4 * e + 3),
      AddRhs(e, 2 * e), AddRhs(e + 1, 2 * e + 1) ]
    + if e == 0 then [SetMat(0, 1.0), SetRhs(0, 0.0), SetMat(1, 0.0), SetMat(2, 0.0)] else []
  }

  function OpCount(e: nat): nat {
    if e == 0 then 10 else 6
  }

  /** The operations left to the first n elements. */
  function Left(pc: seq<nat>, n: nat): int
    requires n <= |pc|
  {
    if n == 0 then 0 else Left(pc, n - 1) + OpCount(n - 1) - pc[n - 1]
  }

  lemma {:induction false} LeftBound(pc: seq<nat>, n: nat)
    requires n <= |pc| && forall e | 0 <= e < |pc| :: pc[e] <= OpCount(e)
    ensures Left(pc, n) >= 0
  {
    if n > 0 {
      LeftBound(pc, n - 1);
    }
  }

  lemma {:induction false} LeftStep(pc: seq<nat>, e: nat, n: nat)
    requires n <= |pc| && e < |pc|
    ensures Left(pc[e := pc[e] + 1], n) == Left(pc, n) - if e < n then 1 else 0
  {
    if n > 0 {
      LeftStep(pc, e, n - 1);
    }
  }

  /** The thread of element e is past its operation k. */
  predicate Past(pc: seq<nat>, e: int, k: nat) {
    0 <= e < |pc| && pc[e] > k
  }

  /** A slot of the matrix values while the kernel runs: only two threads ever touch it. */
  function SlotNow(mats: Vec, vals: Vec, pc: seq<nat>, s: nat): real {
    var q, r := s / 3, s % 3;
    if s == 0 && Past(pc, 0, 6) then 1.0
    else if s == 1 && Past(pc, 0, 8) then 0.0
    else if s == 2 && Past(pc, 0, 9) then 0.0
    else if r == 0 then
      At(vals, s) + (if Past(pc, q - 1, 3) then At(mats, 4 * q - 1) else 0.0)
          + (if Past(pc, q, 0) then At(mats, 4 * q) else 0.0)
    else At(vals, s) + (if Past(pc, q, r) then At(mats, 4 * q + r) else 0.0)
  }

  /** An entry of the right-hand side while the kernel runs. */
  function DofNow(rhss: Vec, rhs: Vec, pc: seq<nat>, i: nat): real {
    var left := if Past(pc, i - 1, 5) then At(rhss, 2 * i - 1) else 0.0;
    var right := if Past(pc, i, 4) then At(rhss, 2 * i) else 0.0;
    if i == 0 && Past(pc, 0, 7) then 0.0 else At(rhs, i) + left + right
  }

  /** An operation changes one slot, and changes it to what it should hold next. */
  lemma SlotStep(mats: Vec, vals: Vec, pc: seq<nat>, e: nat, s: nat)
    requires e < |pc| && pc[e] < OpCount(e)
    ensures pc[e] < |Ops(e)|
    ensures SlotNow(mats, vals, pc[e := pc[e] + 1], s) == SlotAfter(Ops(e)[pc[e]], mats, SlotNow(mats, vals, pc, s), s)
  {}

  lemma DofStep(rhss: Vec, rhs: Vec, pc: seq<nat>, e: nat, i: nat)
    requires e < |pc| && pc[e] < OpCount(e)
    ensures pc[e] < |Ops(e)|
    ensures DofNow(rhss, rhs, pc[e := pc[e] + 1], i) == DofAfter(Ops(e)[pc[e]], rhss, DofNow(rhss, rhs, pc, i), i)
  {}

  /** No operation leaves its view. */
  lemma OpBounds(hp: Params, e: nat, k: nat)
    requires e < hp.numElems && k < OpCount(e)
    ensures k < |Ops(e)|
    ensures match Ops(e)[k]
            case AddMat(s, f) => s < hp.NumEntries() && f < 4 * hp.numElems
            case SetMat(s, v) => s < hp.NumEntries()
            case AddRhs(i, f) => i < hp.NumDofs() && f < 2 * hp.numElems
            case SetRhs(i, v) => i < hp.NumDofs()
  {}

  lemma AllDone(hp: Params, mats: Vec, rhss: Vec, vals: Vec, rhs: Vec, pc: seq<nat>)
    requires hp.numElems >= 1 && |pc| == hp.numElems && forall e | 0 <= e < |pc| :: pc[e] == OpCount(e)
    ensures forall s: nat | s < hp.NumEntries() :: SlotNow(mats, vals, pc, s) == ScatterValues(hp, mats, vals)[s]
    ensures forall i: nat | i < hp.NumDofs() :: DofNow(rhss, rhs, pc, i) == ScatterRhs(hp, rhss, rhs)[i]
  {
    forall e, k | 0 <= e < |pc| && 0 <= k < 6 ensures Past(pc, e, k) {}
  }

  /** Every interleaving of the elements leaves the sum of all element contributions, with the boundary imposed. */
  method ScatterKernel(hp: Params, mats: array<real>, rhss: array<real>, vals: array<real>, rhs: array<real>)
    requires hp.numElems >= 1 && mats.Length == 4 * hp.numElems && rhss.Length == 2 * hp.numElems
    requires vals.Length == hp.NumEntries() && rhs.Length == hp.NumDofs()
    requires mats !in {vals, rhs} && rhss !in {vals, rhs} && vals != rhs
    modifies vals, rhs
    ensures vals[..] == ScatterValues(hp, mats[..], old(vals[..]))
    ensures rhs[..] == ScatterRhs(hp, rhss[..], old(rhs[..]))
  {
    hide SlotNow, DofNow, Ops, Left, ScatterValues, ScatterRhs, OpCount;
    var pc: seq<nat> := seq(hp.numElems, e => 0);
    ghost var m, f, v0, r0 := mats[..], rhss[..], vals[..], rhs[..];
    Begin(m, f, v0, r0, pc);
    LeftBound(pc, |pc|);
    while exists e :: 0 <= e < |pc| && pc[e] < OpCount(e)
      invariant |pc| == hp.numElems && forall e | 0 <= e < |pc| :: pc[e] <= OpCount(e)
      invariant forall s: nat | s < vals.Length :: vals[s] == SlotNow(m, v0, pc, s)
      invariant forall i: nat | i < rhs.Length :: rhs[i] == DofNow(f, r0, pc, i)
      invariant Left(pc, |pc|) >= 0
      decreases Left(pc, |pc|)
    {
      var e :| 0 <= e < |pc| && pc[e] < OpCount(e);
      OpBounds(hp, e, pc[e]);
      LeftStep(pc, e, |pc|);
      var next, op := pc[e := pc[e] + 1], Ops(e)[pc[e]];
      ghost var v, r := vals[..], rhs[..];
      forall s: nat | s < |v| ensures SlotNow(m, v0, next, s) == SlotAfter(op, m, v[s], s) {
        SlotStep(m, v0, pc, e, s);
      }
      forall i: nat | i < |r| ensures DofNow(f, r0, next, i) == DofAfter(op, f, r[i], i) {
        DofStep(f, r0, pc, e, i);
      }
      match op {
        case AddMat(s, from) => vals[s] := vals[s] + mats[from];
        case AddRhs(i, from) => rhs[i] := rhs[i] + rhss[from];
        case SetMat(s, value) => vals[s] := value;
        case SetRhs(i, value) => rhs[i] := value;
      }
      assert forall s: nat | s < vals.Length :: vals[s] == SlotAfter(op, m, v[s], s);
      assert forall i: nat | i < rhs.Length :: rhs[i] == DofAfter(op, f, r[i], i);
      pc := next;
      LeftBound(pc, |pc|);
    }
    AllDone(hp, m, f, v0, r0, pc);
  }

  function SlotAfter(op: Op, mats: Vec, now: real, s: nat): real {
    if op.AddMat? && op.slot == s then now + At(mats, op.from) else if op.SetMat? && op.slot == s then op.value else now
  }

  function DofAfter(op: Op, rhss: Vec, now: real, i: nat): real {
    if op.AddRhs? && op.dof == i then now + At(rhss, op.from) else if op.SetRhs? && op.dof == i then op.value else now
  }

  lemma Begin(mats: Vec, rhss: Vec, vals: Vec, rhs: Vec, pc: seq<nat>)
    requires forall e | 0 <= e < |pc| :: pc[e] == 0
    ensures forall s: nat | s < |vals| :: SlotNow(mats, vals, pc, s) == vals[s]
    ensures forall i: nat | i < |rhs| :: DofNow(rhss, rhs, pc, i) == rhs[i]
  {}

  // ------------------------------------------------------------------------
  // The assembled system as a sum of element blocks.
  // ------------------------------------------------------------------------

  /** What element e contributes to row i and column j. */
  function Block(hp: Params, u: Vec, e: nat, i: nat, j: nat): real {
    if e <= i <= e + 1 && e <= j <= e + 1 then ElemMat(hp, At(u, e), At(u, e + 1), i - e, j - e) else 0.0
  }

  function BlockSum(hp: Params, u: Vec, i: nat, j: nat, n: nat): real {
    if n == 0 then 0.0 else BlockSum(hp, u, i, j, n - 1) + Block(hp, u, n - 1, i, j)
  }

  /** All blocks added up, with the boundary row and column replaced by those of the identity. */
  function Assembled(hp: Params, u: Vec, i: nat, j: nat): real {
    if i == 0 || j == 0 then (if i == j then 1.0 else 0.0) else BlockSum(hp, u, i, j, hp.numElems)
  }

  /** What element e contributes to entry i of the residual. */
  function BlockRhs(hp: Params, u: Vec, e: nat, i: nat): real {
    if e <= i <= e + 1 then ElemRhs(hp, At(u, e), At(u, e + 1), i - e) else 0.0
  }

  function BlockRhsSum(hp: Params, u: Vec, i: nat, n: nat): real {
    if n == 0 then 0.0 else BlockRhsSum(hp, u, i, n - 1) + BlockRhs(hp, u, n - 1, i)
  }

  lemma {:induction false} BlockSumDiagonal(hp: Params, u: Vec, i: nat, n: nat)
    ensures BlockSum(hp, u, i, i, n)
         == (if 1 <= i <= n then ElemMat(hp, At(u, i - 1), At(u, i), 1, 1) else 0.0)
          + (if i < n then ElemMat(hp, At(u, i), At(u, i + 1), 0, 0) else 0.0)
  {
    hide ElemMat;
    if n > 0 {
      BlockSumDiagonal(hp, u, i, n - 1);
    }
  }

  lemma {:induction false} BlockSumBeside(hp: Params, u: Vec, i: nat, j: nat, n: nat)
    requires i != j
    ensures BlockSum(hp, u, i, j, n)
         == if j == i + 1 && i < n then ElemMat(hp, At(u, i), At(u, j), 0, 1)
            else if i == j + 1 && j < n then ElemMat(hp, At(u, j), At(u, i), 1, 0)
            else 0.0
  {
    hide ElemMat;
    if n > 0 {
      BlockSumBeside(hp, u, i, j, n - 1);
    }
  }

  lemma {:induction false} BlockRhsSumAt(hp: Params, u: Vec, i: nat, n: nat)
    ensures BlockRhsSum(hp, u, i, n)
         == (if 1 <= i <= n then ElemRhs(hp, At(u, i - 1), At(u, i), 1) else 0.0)
          + (if i < n then ElemRhs(hp, At(u, i), At(u, i + 1), 0) else 0.0)
  {
    hide ElemRhs;
    if n > 0 {
      BlockRhsSumAt(hp, u, i, n - 1);
    }
  }

  lemma DivMod(e: nat, k: nat, n: nat)
    requires k < n
    ensures n == 4 ==> (4 * e + k) / 4 == e && (4 * e + k) % 4 == k
    ensures n == 2 ==> (2 * e + k) / 2 == e && (2 * e + k) % 2 == k
  {}

  lemma FillMatsIs(hp: Params, u: Vec, i: nat)
    requires i < 4 * hp.numElems
    ensures FillMats(hp, u)[i] == ElemMat(hp, At(u, i / 4), At(u, i / 4 + 1), i % 4 / 2, i % 4 % 2)
  {
    hide ElemMat, At;
  }

  lemma FillMatsAt(hp: Params, u: Vec, e: nat, k: nat)
    requires e < hp.numElems && k < 4
    ensures FillMats(hp, u)[4 * e + k] == ElemMat(hp, At(u, e), At(u, e + 1), k / 2, k % 2)
  {
    hide *;
    DivMod(e, k, 4);
    FillMatsIs(hp, u, 4 * e + k);
  }

  lemma FillAt(hp: Params, u: Vec, e: nat, a: nat, b: nat)
    requires e < hp.numElems && a < 2 && b < 2
    ensures FillMats(hp, u)[4 * e + 2 * a + b] == ElemMat(hp, At(u, e), At(u, e + 1), a, b)
    ensures FillRhss(hp, u)[2 * e + a] == ElemRhs(hp, At(u, e), At(u, e + 1), a)
  {
    hide ElemMat, ElemRhs, FillMats;
    DivMod(a, b, 2);
    FillMatsAt(hp, u, e, 2 * a + b);
    DivMod(e, a, 2);
  }

  /** An assembled slot. */
  lemma ValuesAt(hp: Params, u: Vec, i: nat, j: nat)
    requires hp.numElems >= 1 && 1 <= i <= hp.numElems && 1 <= j <= hp.numElems && -1 <= i - j <= 1
    ensures At(Values(hp, u), 2 * i + j) == BlockSum(hp, u, i, j, hp.numElems)
  {
    hide ElemMat, FillMats, BlockSum;
    var m, n := FillMats(hp, u), hp.numElems;
    if i == j {
      BlockSumDiagonal(hp, u, i, n);
      FillAt(hp, u, i - 1, 1, 1);
      if i < n {
        FillAt(hp, u, i, 0, 0);
      }
      SlotAddsAt(hp, m, i, 0);
    } else if i < j {
      BlockSumBeside(hp, u, i, j, n);
      FillAt(hp, u, i, 0, 1);
      SlotAddsAt(hp, m, i, 1);
    } else {
      BlockSumBeside(hp, u, i, j, n);
      FillAt(hp, u, j, 1, 0);
      SlotAddsAt(hp, m, j, 2);
    }
  }

  lemma SlotAddsAt(hp: Params, mats: Vec, e: nat, r: nat)
    requires r < 3
    ensures SlotAdds(hp, mats, 3 * e + r)
         == if r == 0 then (if e > 0 then At(mats, 4 * (e - 1) + 3) else 0.0)
             + (if e < hp.numElems then At(mats, 4 * e) else 0.0)
            else At(mats, 4 * e + r)
  {
    assert (3 * e + r) / 3 == e && (3 * e + r) % 3 == r;
  }

  /** The assembled matrix is the sum of all element blocks with the boundary row and column imposed. */
  lemma AssembledMatrix(hp: Params, u: Vec, i: nat, j: nat)
    requires hp.numElems >= 1 && i <= hp.numElems && j <= hp.numElems
    ensures Coef(HeatPattern(hp), Values(hp, u), i, j) == Assembled(hp, u, i, j)
  {
    hide Coef, BlockSum, FillMats, HeatPattern;
    CoefAt(hp, Values(hp, u), i, j);
    if i >= 1 && j >= 1 {
      if -1 <= i - j <= 1 {
        ValuesAt(hp, u, i, j);
      } else {
        BlockSumBeside(hp, u, i, j, hp.numElems);
      }
    }
  }

  /** The assembled residual is the sum of all element residuals with the boundary entry imposed. */
  lemma AssembledRhs(hp: Params, u: Vec, i: nat)
    requires hp.numElems >= 1 && i <= hp.numElems
    ensures Rhs(hp, u)[i] == if i == 0 then 0.0 else BlockRhsSum(hp, u, i, hp.numElems)
  {
    hide ElemRhs, FillRhss, BlockRhsSum;
    if i > 0 {
      BlockRhsSumAt(hp, u, i, hp.numElems);
      FillAt(hp, u, i - 1, 1, 0);
      if i < hp.numElems {
        FillAt(hp, u, i, 0, 0);
      }
    }
  }

  /** The assembled matrix is symmetric. */
  lemma AssembledSymmetric(hp: Params, u: Vec)
    requires hp.numElems >= 1
    ensures Symmetric(HeatPattern(hp), Values(hp, u))
  {
    hide Coef, BlockSum, Values, ElemMat, HeatPattern;
    PatternWellFormed(hp);
    forall i: nat, j: nat | i < hp.NumDofs() && j < hp.NumDofs()
      ensures Coef(HeatPattern(hp), Values(hp, u), i, j) == Coef(HeatPattern(hp), Values(hp, u), j, i)
    {
      AssembledMatrix(hp, u, i, j);
      AssembledMatrix(hp, u, j, i);
      if i != j {
        BlockSumBeside(hp, u, i, j, hp.numElems);
        BlockSumBeside(hp, u, j, i, hp.numElems);
        ElemSymmetric(hp, At(u, i), At(u, j));
        ElemSymmetric(hp, At(u, j), At(u, i));
      }
    }
  }

  lemma ElemSymmetric(hp: Params, l: real, r: real)
    ensures ElemMat(hp, l, r, 0, 1) == ElemMat(hp, l, r, 1, 0)
  {}

  // ------------------------------------------------------------------------
  // The fill kernel. Its elements run in any order.
  // ------------------------------------------------------------------------

  lemma QuadraticWeights(l: real, r: real)
    ensures 1.0 / 4.0 * l * l + 1.0 / 6.0 * l * r + 1.0 / 12.0 * r * r == Heat.Quadratic(l, r)
    ensures 1.0 / 12.0 * l * l + 1.0 / 6.0 * l * r + 1.0 / 4.0 * r * r == Heat.Quadratic(r, l)
  {}

  lemma ElementValues(hp: Params, l: real, r: real)
    ensures ElemRhs(hp, l, r, 0) == Div(l - r, hp.H()) + Mul(hp.HK(), Heat.Quadratic(l, r))
    ensures ElemRhs(hp, l, r, 1) == -Div(l - r, hp.H()) + Mul(hp.HK(), Heat.Quadratic(r, l))
    ensures ElemMat(hp, l, r, 0, 0) == Div(1.0, hp.H()) + Mul(hp.HK(), l / 2.0 + r / 6.0)
    ensures ElemMat(hp, l, r, 1, 1) == Div(1.0, hp.H()) + Mul(hp.HK(), l / 6.0 + r / 2.0)
    ensures ElemMat(hp, l, r, 0, 1) == ElemMat(hp, l, r, 1, 0) == Div(-1.0, hp.H()) + Mul(hp.HK(), l / 6.0 + r / 6.0)
  {
    hide Mul, Heat.Quadratic;
  }

  /** InitialGuess over all nodes, in any order. */
  method GuessKernel(guess: array<real>, step: real)
    modifies guess
    ensures guess[..] == Guess(guess.Length, step) && Descends(guess[..], step)
  {
    var rest := Range(guess.Length);
    while rest != {}
      invariant rest <= Range(guess.Length)
      invariant forall i | 0 <= i < guess.Length && i !in rest :: guess[i] == Guess(guess.Length, step)[i]
      decreases |rest|
    {
      var idx :| idx in rest;
      rest := rest - {idx};
      guess[idx] := 1.0 - idx as real * step;
    }
    GuessDescends(guess[..], step);
  }

  /** The two residual entries and the four matrix entries of one element. */
  method FillElement(hp: Params, u: array<real>, mats: array<real>, rhss: array<real>, e: nat)
    requires u.Length == hp.NumDofs() && mats.Length == 4 * hp.numElems && rhss.Length == 2 * hp.numElems
    requires u !in {mats, rhss} && mats != rhss && e < hp.numElems
    modifies mats, rhss
    ensures forall i | 0 <= i < mats.Length ::
              mats[i] == if i / 4 == e then FillMats(hp, u[..])[i] else old(mats[i])
    ensures forall i | 0 <= i < rhss.Length ::
              rhss[i] == if i / 2 == e then FillRhss(hp, u[..])[i] else old(rhss[i])
  {
    hide Mul, Div, Heat.Quadratic, ElemMat, ElemRhs, FillMats, FillRhss;
    var h, hk := hp.H(), hp.HK();
    var l, r := u[e], u[e + 1];
    var stiff := Div(l - r, h);
    rhss[2 * e] := stiff + Mul(hk, 1.0 / 4.0 * l * l + 1.0 / 6.0 * l * r + 1.0 / 12.0 * r * r);
    rhss[2 * e + 1] := -stiff + Mul(hk, 1.0 / 12.0 * l * l + 1.0 / 6.0 * l * r + 1.0 / 4.0 * r * r);
    mats[4 * e] := Div(1.0, h) + Mul(hk, l / 2.0 + r / 6.0);
    mats[4 * e + 3] := Div(1.0, h) + Mul(hk, l / 6.0 + r / 2.0);
    mats[4 * e + 1] := Div(-1.0, h) + Mul(hk, l / 6.0 + r / 6.0);
    mats[4 * e + 2] := mats[4 * e + 1];
    QuadraticWeights(l, r);
    ElementValues(hp, l, r);
    FillAt(hp, u[..], e, 0, 0);
    FillAt(hp, u[..], e, 0, 1);
    FillAt(hp, u[..], e, 1, 0);
    FillAt(hp, u[..], e, 1, 1);
  }

  method FillKernel(hp: Params, u: array<real>, mats: array<real>, rhss: array<real>)
    requires u.Length == hp.NumDofs() && mats.Length == 4 * hp.numElems && rhss.Length == 2 * hp.numElems
    requires u !in {mats, rhss} && mats != rhss
    modifies mats, rhss
    ensures mats[..] == FillMats(hp, u[..]) && rhss[..] == FillRhss(hp, u[..])
  {
    hide FillMats, FillRhss;
    var todo := Range(hp.numElems);
    while todo != {}
      invariant forall e: nat :: e in todo ==> e < hp.numElems
      invariant forall i | 0 <= i < mats.Length && i / 4 !in todo :: mats[i] == FillMats(hp, u[..])[i]
      invariant forall i | 0 <= i < rhss.Length && i / 2 !in todo :: rhss[i] == FillRhss(hp, u[..])[i]
      decreases todo
    {
      var e: nat :| e in todo;
      todo := todo - {e};
      FillElement(hp, u, mats, rhss, e);
    }
  }
}
