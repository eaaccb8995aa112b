/** Definitions shared by unrelated parts. */
module Basics {

  datatype Option<+T> = None | Some(value: T)

  type Byte = b: int | 0 <= b < 256

  function Min(a: int, b: int): int {
    if a <= b then a else b
  }

  ghost predicate NoDup<T(!new)>(s: seq<T>) {
    forall i, j :: 0 <= i < j < |s| ==> s[i] != s[j]
  }

  lemma NoDupCat<T(!new)>(p: seq<T>, q: seq<T>)
    requires NoDup(p) && NoDup(q) && forall h :: h in p ==> h !in q
    ensures NoDup(p + q)
  {
    forall i, j | 0 <= i < j < |p + q|
      ensures (p + q)[i] != (p + q)[j]
    {
      if i < |p| <= j {
        assert p[i] in p && q[j - |p|] in q;
      }
    }
  }
}
