/** Small shared vocabulary: optional values, minima, and counting in finite sets. */
module Basics {
  datatype Option<+T> = None | Some(value: T)

  function Min(a: nat, b: nat): nat {
    if a <= b then a else b
  }

  function One(b: bool): nat {
    if b then 1 else 0
  }

  lemma SizeWithout<T>(a: set<T>, x: T)
    ensures |a| == |a - {x}| + One(x in a)
  {
    if x in a {
      assert a == (a - {x}) + {x};
    } else {
      assert a == a - {x};
    }
  }

  /** Two sets that agree everywhere but at `w`. */
  lemma DifferAt<T(!new)>(a: set<T>, b: set<T>, w: T)
    requires forall x | x != w :: x in a <==> x in b
    ensures |b| + One(w in a) == |a| + One(w in b)
  {
    SizeWithout(a, w);
    SizeWithout(b, w);
    assert a - {w} == b - {w};
  }
}
