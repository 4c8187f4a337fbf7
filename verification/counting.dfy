/** How many elements of a list have a property: the number of positions at which it holds. */
module Counting {
  ghost function Where<T>(s: seq<T>, p: T -> bool): set<int> { set i | 0 <= i < |s| && p(s[i]) }

  ghost function Many<T>(s: seq<T>, p: T -> bool): nat { |Where(s, p)| }

  lemma OneMoreMember<T>(before: set<T>, now: set<T>, x: T, last: bool)
    requires x !in before && forall y :: y in now <==> y in before || (y == x && last)
    ensures |now| == |before| + if last then 1 else 0
  {
    assert now == before + if last then {x} else {};
  }

  lemma NoneOfNone<T>(p: T -> bool)
    ensures Many([], p) == 0
  {
    assert Where([], p) == {};
  }

  lemma AsManyOf<A, B>(a: seq<A>, p: A -> bool, b: seq<B>, q: B -> bool)
    requires |a| == |b| && forall i | 0 <= i < |a| :: p(a[i]) == q(b[i])
    ensures Many(a, p) == Many(b, q)
  {
    assert Where(a, p) == Where(b, q);
  }

  /** One element more at the end. */
  lemma ManyOfMore<T>(s: seq<T>, x: T, p: T -> bool)
    ensures Many(s + [x], p) == Many(s, p) + if p(x) then 1 else 0
  {
    var before, now := Where(s, p), Where(s + [x], p);
    forall i
      ensures i in now <==> i in before || (i == |s| && p(x))
    {
    }
    OneMoreMember(before, now, |s|, p(x));
  }
}
