/** Types and sequence facts shared by the other modules. */
module Base {

  newtype byte = x: int | 0 <= x < 256

  datatype Option<+T> = None | Some(value: T)

  function Min(a: int, b: int): int {
    if a <= b then a else b
  }

  /** The first element that passes a test, or the length. */
  function FirstIndex<T>(s: seq<T>, test: T -> bool): (k: nat)
    ensures k <= |s| && (k < |s| ==> test(s[k])) && forall j :: 0 <= j < k ==> !test(s[j])
  {
    if s == [] || test(s[0]) then 0 else 1 + FirstIndex(s[1..], test)
  }

  /** Concatenation of a list of buffers. */
  function Flatten<T>(ss: seq<seq<T>>): seq<T> {
    if ss == [] then [] else ss[0] + Flatten(ss[1..])
  }

  lemma Concat<T>(a: seq<T>, b: seq<T>, c: seq<T>)
    ensures a + (b + c) == (a + b) + c
  {
  }

  lemma SplitAt<T>(s: seq<T>, k: nat)
    requires k <= |s|
    ensures s[..k] + s[k..] == s
  {
  }

  lemma Cons<T>(x: T, s: seq<T>)
    ensures ([x] + s)[0] == x && ([x] + s)[1..] == s
  {
  }

  lemma {:induction false} FlattenAppend<T>(ss: seq<seq<T>>, tt: seq<seq<T>>)
    ensures Flatten(ss + tt) == Flatten(ss) + Flatten(tt)
  {
    if ss == [] {
      assert ss + tt == tt;
    } else {
      FlattenAppend(ss[1..], tt);
      assert (ss + tt)[1..] == ss[1..] + tt && (ss + tt)[0] == ss[0];
      Concat(ss[0], Flatten(ss[1..]), Flatten(tt));
    }
  }

  lemma FlattenSingle<T>(s: seq<T>)
    ensures Flatten([s]) == s
  {
    assert Flatten([s]) == s + Flatten<T>([]);
  }
}
