/** Python list idioms the client builds its results with. */
module PyList {
  import opened PyText

  /** The elements `check` accepts, in their order (a loop that appends each
      element when `check` is None or `check(element)` holds). */
  function Kept<T>(xs: seq<T>, check: Option<T -> bool>): (r: seq<T>)
    ensures |r| <= |xs|
    ensures check.None? ==> r == xs
    ensures forall x :: x in r ==> x in xs && (check.Some? ==> check.value(x))
    ensures check.Some? ==> forall x :: x in xs && check.value(x) ==> x in r
  {
    if xs == [] then []
    else
      var rest := Kept(xs[1..], check);
      assert xs == [xs[0]] + xs[1..];
      if check.None? || check.value(xs[0]) then [xs[0]] + rest else rest
  }

  /** Filtering a list one element longer filters the last element on its own. */
  lemma {:induction false} KeptAppend<T>(xs: seq<T>, x: T, check: Option<T -> bool>)
    ensures Kept(xs + [x], check) == Kept(xs, check) + (if check.None? || check.value(x) then [x] else [])
  {
    if xs != [] {
      assert (xs + [x])[1..] == xs[1..] + [x];
      KeptAppend(xs[1..], x, check);
    }
  }
}
