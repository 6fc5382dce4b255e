/** Slices used as sets (pkg/util/utilfn/utilfn.go). */
module Slices {
  predicate NoDups<T(==)>(s: seq<T>) {
    forall i, j :: 0 <= i < j < |s| ==> s[i] != s[j]
  }

  /** RemoveElemFromSlice: the slice without the first occurrence. */
  function Remove<T(==)>(s: seq<T>, x: T): seq<T> {
    if s == [] then [] else if s[0] == x then s[1..] else [s[0]] + Remove(s[1..], x)
  }

  /** AddElemToSliceUniq */
  function AddUniq<T(==, !new)>(s: seq<T>, x: T): (r: seq<T>)
    ensures forall y :: y in r <==> y in s || y == x
    ensures NoDups(s) ==> NoDups(r)
  {
    if x in s then s else s + [x]
  }

  lemma {:induction false} RemoveFromSet<T(!new)>(s: seq<T>, x: T)
    requires NoDups(s)
    ensures NoDups(Remove(s, x)) && forall y :: y in Remove(s, x) <==> y in s && y != x
  {
    if s != [] {
      assert s == [s[0]] + s[1..];
      RemoveFromSet(s[1..], x);
      assert forall y :: y in s <==> y == s[0] || y in s[1..];
      if s[0] != x {
        var r := Remove(s[1..], x);
        assert forall y :: y in [s[0]] + r <==> y == s[0] || y in r;
        assert s[0] !in r;
      }
    }
  }

  lemma AppendToSet<T(!new)>(s: seq<T>, x: T)
    requires NoDups(s) && x !in s
    ensures NoDups(s + [x]) && forall y :: y in s + [x] <==> y in s || y == x
  {
  }
}
