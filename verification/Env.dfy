/** Receiver environments, and replacing one property of a nested environment. */
module Env {
  import opened Wrappers

  /** A query. Only forwarding queries pass through a forwarding wrapper. */
  datatype Tag = Tag(id: nat, forwarding: bool)

  /** Values are numbers here; an execution space instance is known by its number. */
  datatype Env =
    | Empty
    | Prop(tag: Tag, value: nat)
    | Single(prop: Env)
    | Pair(left: Env, right: Env)
    | Fwd(inner: Env)
    /** An environment of some other type, which answers the given queries. */
    | Other(answers: map<Tag, nat>)
  {
    function Query(t: Tag): (v: Option<nat>) {
      match this
      case Empty => None
      case Prop(tag, value) => if tag == t then Some(value) else None
      case Single(prop) => prop.Query(t)
      case Pair(left, right) => if left.Query(t).Some? then left.Query(t) else right.Query(t)
      case Fwd(inner) => if t.forwarding then inner.Query(t) else None
      case Other(answers) => if t in answers then Some(answers[t]) else None
    }

    predicate Queryable(t: Tag) {
      Query(t).Some?
    }
  }

  /** Wrapping a wrapper adds nothing. */
  function FwdEnv(e: Env): (f: Env)
    ensures forall t: Tag :: f.Query(t) == if t.forwarding then e.Query(t) else None
  {
    if e.Fwd? then e else Fwd(e)
  }

  /**
   * What a call of the overload set comes to: no overload is viable, one is selected whose body does not compile,
   * or an environment.
   */
  datatype Call = NotViable | IllFormed | Made(env: Env)

  /**
   * The overload set of upsert_in_env. The overload for a pair whose first component does not match does not test
   * its recursive call before it is selected, the one for a forwarding wrapper does.
   */
  function Upsert(t: Tag, e: Env, v: nat): (r: Call) {
    if e.Prop? && e.tag == t then Made(Prop(t, v))
    else if !e.Queryable(t) then Made(Pair(Prop(t, v), e))
    else if e.Single? && e.prop.Prop? && e.prop.tag == t then Made(Single(Prop(t, v)))
    else if e.Pair? && e.left.Queryable(t) then Made(Pair(Prop(t, v), e.right))
    else if e.Pair? then
      match Upsert(t, e.right, v)
      case Made(r) => Made(Pair(e.left, r))
      case _ => IllFormed
    else if e.Fwd? then
      match Upsert(t, e.inner, v)
      case Made(r) => Made(Fwd(r))
      case other => other
    else NotViable
  }

  /** Joins a new property in front where no overload is viable. */
  function UpsertOrJoin(t: Tag, e: Env, v: nat): (r: Call) {
    var u := Upsert(t, e, v);
    if u.NotViable? then Made(Pair(Prop(t, v), e)) else u
  }

  // ------------------------------------------------------------------------
  // What a call comes to.
  // ------------------------------------------------------------------------

  /** The query is answered by something that is neither a property nor a pair. */
  predicate Foreign(e: Env, t: Tag) {
    match e
    case Fwd(inner) => t.forwarding && Foreign(inner, t)
    case Single(prop) => prop.Queryable(t) && !prop.Prop?
    case Other(answers) => t in answers
    case _ => false
  }

  /** Such an answer lies behind the first component of a pair. */
  predicate Buried(e: Env, t: Tag) {
    match e
    case Pair(left, right) => !left.Queryable(t) && (Foreign(right, t) || Buried(right, t))
    case Fwd(inner) => t.forwarding && Buried(inner, t)
    case _ => false
  }

  lemma {:induction false} ForeignAnswers(e: Env, t: Tag)
    ensures Foreign(e, t) || Buried(e, t) ==> e.Queryable(t)
    ensures !(Foreign(e, t) && Buried(e, t))
  {
    match e
    case Pair(left, right) => ForeignAnswers(right, t);
    case Fwd(inner) => ForeignAnswers(inner, t);
    case Empty =>
    case Prop(tag, value) =>
    case Single(prop) =>
    case Other(answers) =>
  }

  /**
   * For every environment: no overload is viable exactly when a foreign answer is in front, and the call is
   * ill-formed exactly when it lies behind a pair.
   */
  lemma {:induction false} UpsertOutcome(t: Tag, e: Env, v: nat)
    ensures Upsert(t, e, v).NotViable? <==> Foreign(e, t)
    ensures Upsert(t, e, v).IllFormed? <==> Buried(e, t)
  {
    ForeignAnswers(e, t);
    match e
    case Pair(left, right) =>
      UpsertOutcome(t, right, v);
      ForeignAnswers(right, t);
    case Fwd(inner) =>
      UpsertOutcome(t, inner, v);
      ForeignAnswers(inner, t);
    case Empty =>
    case Prop(tag, value) =>
    case Single(prop) =>
      assert prop.Prop? ==> (prop.Queryable(t) <==> prop.tag == t);
    case Other(answers) =>
  }

  /** Joining makes up for a foreign answer in front, but not for one behind a pair. */
  lemma JoinOutcome(t: Tag, e: Env, v: nat)
    ensures UpsertOrJoin(t, e, v).Made? <==> !Buried(e, t)
    ensures UpsertOrJoin(t, e, v).IllFormed? <==> Buried(e, t)
  {
    UpsertOutcome(t, e, v);
    ForeignAnswers(e, t);
  }

  // ------------------------------------------------------------------------
  // What a call changes.
  // ------------------------------------------------------------------------

  /**
   * Setting t changes what q answers: a component that answers both is dropped, and what follows it answers
   * differently.
   */
  predicate Loses(t: Tag, e: Env, q: Tag) {
    match e
    case Pair(left, right) =>
      if left.Queryable(t) then left.Queryable(q) && right.Query(q) != left.Query(q)
      else !left.Queryable(q) && Loses(t, right, q)
    case Fwd(inner) => t.forwarding && q.forwarding && Loses(t, inner, q)
    case _ => false
  }

  /** For every environment: the new value is returned, and exactly the lost queries change. */
  lemma {:induction false} UpsertUpdates(t: Tag, e: Env, v: nat, q: Tag)
    requires Upsert(t, e, v).Made?
    ensures var r := Upsert(t, e, v).env;
            r.Query(t) == Some(v) && (q != t ==> (r.Query(q) == e.Query(q) <==> !Loses(t, e, q)))
  {
    if e.Queryable(t) {
      match e
      case Pair(left, right) =>
        if !left.Queryable(t) {
          UpsertUpdates(t, right, v, q);
        }
      case Fwd(inner) =>
        UpsertUpdates(t, inner, v, q);
      case _ =>
    } else {
      NothingLost(t, e, q);
    }
  }

  lemma {:induction false} NothingLost(t: Tag, e: Env, q: Tag)
    requires !e.Queryable(t) || Foreign(e, t)
    ensures !Loses(t, e, q)
  {
    match e
    case Pair(left, right) => NothingLost(t, right, q);
    case Fwd(inner) =>
      if t.forwarding {
        NothingLost(t, inner, q);
      }
    case _ =>
  }

  /** The same for the join, whenever the call is well-formed. */
  lemma JoinUpdates(t: Tag, e: Env, v: nat, q: Tag)
    requires UpsertOrJoin(t, e, v).Made?
    ensures var r := UpsertOrJoin(t, e, v).env;
            r.Query(t) == Some(v) && (q != t ==> (r.Query(q) == e.Query(q) <==> !Loses(t, e, q)))
  {
    UpsertOutcome(t, e, v);
    if Upsert(t, e, v).Made? {
      UpsertUpdates(t, e, v, q);
    } else {
      NothingLost(t, e, q);
    }
  }

  /** Setting a property twice is setting it once, to the last value. */
  lemma {:induction false} UpsertAgain(t: Tag, e: Env, v: nat, w: nat)
    requires Upsert(t, e, v).Made?
    ensures Upsert(t, Upsert(t, e, v).env, w) == Upsert(t, e, w)
  {
    assert Prop(t, v).Queryable(t);
    if e.Queryable(t) {
      match e
      case Pair(left, right) =>
        if !left.Queryable(t) {
          UpsertUpdates(t, right, v, t);
          UpsertAgain(t, right, v, w);
        }
      case Fwd(inner) =>
        UpsertUpdates(t, inner, v, t);
        UpsertAgain(t, inner, v, w);
      case _ =>
    }
  }

  /** Nothing foreign answers the query. */
  predicate Settled(e: Env, t: Tag) {
    !Foreign(e, t) && !Buried(e, t)
  }

  /** Forwarding and joining preserve this, so that a chain of such calls stays well-formed. */
  lemma {:induction false} SettledJoin(t: Tag, e: Env, v: nat)
    requires Settled(e, t)
    ensures Settled(FwdEnv(e), t)
    ensures UpsertOrJoin(t, e, v).Made? && Settled(UpsertOrJoin(t, e, v).env, t)
  {
    UpsertOutcome(t, e, v);
    UpsertAgain(t, e, v, v);
    UpsertOutcome(t, Upsert(t, e, v).env, v);
  }

  // ------------------------------------------------------------------------
  // Right-nested environments.
  // ------------------------------------------------------------------------

  /** Right-nested, with a single property on every left and forwarding wrappers anywhere. */
  predicate Nested(e: Env) {
    match e
    case Pair(left, right) => left.Prop? && Nested(right)
    case Fwd(inner) => Nested(inner)
    case Single(prop) => prop.Prop?
    case _ => true
  }

  /** The structure of an environment without the values of its properties. */
  function Shape(e: Env): Env {
    match e
    case Prop(tag, value) => Prop(tag, 0)
    case Single(prop) => Single(Shape(prop))
    case Pair(left, right) => Pair(Shape(left), Shape(right))
    case Fwd(inner) => Fwd(Shape(inner))
    case _ => e
  }

  /** Here an upsert is a map update: it loses nothing, and it keeps the structure. */
  lemma {:induction false} NestedUpdates(t: Tag, e: Env, v: nat)
    requires Nested(e) && Upsert(t, e, v).Made?
    ensures var r := Upsert(t, e, v).env;
            && r.Query(t) == Some(v) && (forall q: Tag | q != t :: r.Query(q) == e.Query(q))
            && Nested(r) && (e.Queryable(t) ==> Shape(r) == Shape(e))
  {
    forall q: Tag ensures !Loses(t, e, q) || q == t {
      NestedLoses(t, e, q);
    }
    forall q: Tag | q != t ensures Upsert(t, e, v).env.Query(q) == e.Query(q) {
      UpsertUpdates(t, e, v, q);
    }
    UpsertUpdates(t, e, v, t);
    if e.Queryable(t) {
      match e
      case Pair(left, right) =>
        if !left.Queryable(t) {
          NestedUpdates(t, right, v);
        }
      case Fwd(inner) =>
        NestedUpdates(t, inner, v);
      case _ =>
    }
  }

  lemma {:induction false} NestedLoses(t: Tag, e: Env, q: Tag)
    requires Nested(e)
    ensures Loses(t, e, q) ==> q == t
  {
    match e
    case Pair(left, right) => NestedLoses(t, right, q);
    case Fwd(inner) => NestedLoses(t, inner, q);
    case _ =>
  }

  /** A first component with two properties loses the other one, if what follows does not give the same answer. */
  lemma UpsertDropsNeighbours(a: Tag, b: Tag, x: nat, y: nat, v: nat)
    requires a != b
    ensures Pair(Pair(Prop(a, x), Prop(b, y)), Empty).Query(b) == Some(y)
    ensures Upsert(a, Pair(Pair(Prop(a, x), Prop(b, y)), Empty), v) == Made(Pair(Prop(a, v), Empty))
    ensures Pair(Prop(a, v), Empty).Query(b) == None
  {
    var left := Pair(Prop(a, x), Prop(b, y));
    assert Prop(a, x).Query(a) == Some(x) && Prop(a, x).Query(b) == None;
    assert left.Query(a) == Some(x) && left.Query(b) == Some(y);
    assert Pair(left, Empty).Query(a) == Some(x);
  }

  /** An answer of some other environment behind a property: the call does not compile, and does not join either. */
  lemma BuriedAnswer(a: Tag, b: Tag, x: nat, y: nat, v: nat)
    requires a != b
    ensures UpsertOrJoin(a, Pair(Prop(b, x), Other(map[a := y])), v) == IllFormed
    ensures UpsertOrJoin(a, Other(map[a := y]), v) == Made(Pair(Prop(a, v), Other(map[a := y])))
  {
    var foreign := Other(map[a := y]);
    assert foreign.Queryable(a) && !Prop(b, x).Queryable(a);
    JoinOutcome(a, Pair(Prop(b, x), foreign), v);
  }
}
