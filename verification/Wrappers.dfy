/** Optional values, and sequences. */
module Wrappers {

  datatype Option<T> = None | Some(value: T)

  function Repeated<T>(s: seq<T>, k: nat): seq<T> {
    if k == 0 then [] else Repeated(s, k - 1) + s
  }

  lemma RepeatedStep<T>(s: seq<T>, k: nat)
    ensures Repeated(s, 0) == [] && Repeated(s, k + 1) == Repeated(s, k) + s
  {}

  lemma {:induction false} RepeatedLength<T>(s: seq<T>, k: nat)
    ensures |Repeated(s, k)| == k * |s|
  {
    if k > 0 {
      RepeatedLength(s, k - 1);
      assert k * |s| == (k - 1) * |s| + |s|;
    }
  }

  lemma EmptyOrMember<T>(s: seq<T>)
    ensures s == [] || exists x :: x in s
  {
    if s != [] {
      assert s[0] in s;
    }
  }
}
