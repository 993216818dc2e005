/** Sizes of finite sets. */
module Sets {

  /** A subset is no larger, and is the whole set if it is as large. */
  lemma {:induction false} SubsetSize<T>(a: set<T>, b: set<T>)
    requires a <= b
    ensures |a| <= |b| && (|a| == |b| ==> a == b)
    decreases |a|
  {
    if a != {} {
      var x :| x in a;
      SubsetSize(a - {x}, b - {x});
      assert a == a - {x} + {x} && b == b - {x} + {x};
    }
  }

  predicate Below(s: set<nat>, bound: nat) {
    forall x :: x in s ==> x < bound
  }

  lemma {:induction false} HasBound(s: set<nat>)
    ensures exists bound :: Below(s, bound)
    decreases |s|
  {
    if s == {} {
      assert Below(s, 0);
    } else {
      var x :| x in s;
      HasBound(s - {x});
      var bound :| Below(s - {x}, bound);
      forall y | y in s ensures y < bound + x + 1 {
        if y != x { assert y in s - {x}; }
      }
      assert Below(s, bound + x + 1);
    }
  }

  /** A number not used yet. */
  ghost function Unused(s: set<nat>): (n: nat)
    ensures n !in s
  {
    HasBound(s);
    var bound :| Below(s, bound);
    bound
  }
}
