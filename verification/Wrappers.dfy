/** The optional value and the arbitrary choice used across the model. */
module Wrappers {
  datatype Option<+T> = None | Some(value: T)

  /** The next element of a map iteration: any. */
  method AnyOf<T(==)>(s: set<T>) returns (x: T)
    requires s != {}
    ensures x in s
  {
    x :| x in s;
  }

  function ElementsOf<T(==)>(s: seq<T>): set<T> { set x | x in s }

  lemma OneMoreElement<T>(s: seq<T>, i: nat)
    requires i < |s|
    ensures ElementsOf(s[..i + 1]) == ElementsOf(s[..i]) + {s[i]}
  {
    assert s[..i + 1] == s[..i] + [s[i]];
  }

  lemma {:induction false} SubsetSize<T>(a: set<T>, b: set<T>)
    requires a <= b
    ensures |a| <= |b| && (|a| == |b| ==> a == b)
  {
    if a != {} {
      var x :| x in a;
      SubsetSize(a - {x}, b - {x});
    }
  }
}
