/** Ascending lists without repetition: what sorting a set of numbers yields. */
module SortedLists {
  predicate Ascending(keys: seq<int>) {
    forall i, j :: 0 <= i < j < |keys| ==> keys[i] < keys[j]
  }

  function Insert(keys: seq<int>, k: int): (r: seq<int>)
    requires Ascending(keys)
    ensures Ascending(r) && forall x :: x in r <==> x == k || x in keys
  {
    if keys == [] then [k]
    else if k < keys[0] then
      assert forall x :: x in [k] + keys <==> x == k || x in keys;
      [k] + keys
    else if k == keys[0] then keys
    else
      var rest := Insert(keys[1..], k);
      assert forall i :: 0 <= i < |rest| ==> rest[i] in rest && keys[0] < rest[i];
      assert keys == [keys[0]] + keys[1..];
      [keys[0]] + rest
  }

  // The distinct elements of a list, ascending.
  function SortedSet(xs: seq<int>): (r: seq<int>)
    ensures Ascending(r) && forall x :: x in r <==> x in xs
  {
    if xs == [] then []
    else
      assert xs == [xs[0]] + xs[1..];
      Insert(SortedSet(xs[1..]), xs[0])
  }
}
