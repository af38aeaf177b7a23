/** Sequence helpers for the services: `IndexOf`, the first-occurrence
    position used to state the `includes` test and where `replace` inserts
    its replacement, and the `includes`-then-`push` de-duplication. */
module Collections {

  /** No element occurs twice. */
  predicate NoDuplicates<T(==)>(xs: seq<T>) {
    forall i, j :: 0 <= i < j < |xs| ==> xs[i] != xs[j]
  }

  /** Position of the first occurrence of `x` in `xs`, or -1 when there is
      none; -1 is exactly the case where `includes` is false. */
  function IndexOf<T(==)>(xs: seq<T>, x: T): (i: int)
    ensures -1 <= i < |xs|
    ensures i == -1 <==> x !in xs
    ensures 0 <= i ==> xs[i] == x && x !in xs[..i]
  {
    if |xs| == 0 then -1
    else if xs[0] == x then 0
    else
      var j := IndexOf(xs[1..], x);
      if j == -1 then -1
      else
        assert xs[..j + 1] == [xs[0]] + xs[1..][..j];
        j + 1
  }

  /** Extending a sequence does not move the first occurrence of an element
      it already held; a new element is found at the end. */
  lemma {:induction false} IndexOfAppend<T>(xs: seq<T>, y: T, x: T)
    ensures x in xs ==> IndexOf(xs + [y], x) == IndexOf(xs, x)
    ensures x !in xs && x == y ==> IndexOf(xs + [y], x) == |xs|
  {
    if x in xs {
      var k := IndexOf(xs, x);
      assert (xs + [y])[k] == x;
      assert (xs + [y])[..k] == xs[..k];
    } else if x == y {
      assert (xs + [y])[..|xs|] == xs;
    }
  }

  /** The elements of `xs` in order of first appearance, each once: the state
      reached by walking `xs` and pushing every element the result does not
      yet include. */
  function Distinct<T(==)>(xs: seq<T>): (r: seq<T>)
    ensures NoDuplicates(r)
    ensures forall i :: 0 <= i < |r| ==> r[i] in xs
    ensures forall i :: 0 <= i < |xs| ==> xs[i] in r
    ensures forall i, j :: 0 <= i < j < |r| ==> IndexOf(xs, r[i]) < IndexOf(xs, r[j])
  {
    if |xs| == 0 then []
    else
      var init := xs[..|xs| - 1];
      var x := xs[|xs| - 1];
      assert xs == init + [x];
      var d := Distinct(init);
      forall y | y in init
        ensures IndexOf(xs, y) == IndexOf(init, y)
      {
        IndexOfAppend(init, x, y);
      }
      if x in d then d
      else
        IndexOfAppend(init, x, x);
        d + [x]
  }

  /** Walking [x, x, y] keeps the first x and then y when it is new. */
  lemma DistinctExample<T>(x: T, y: T)
    ensures Distinct([x, x, y]) == if x == y then [x] else [x, y]
  {
    assert [x, x, y][..2] == [x, x] && [x, x][..1] == [x] && [x][..0] == [];
    assert Distinct([x]) == [x];
    assert Distinct([x, x]) == [x];
  }
}
