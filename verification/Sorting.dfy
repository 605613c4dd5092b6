/** A stable sort by any total preorder, as the source's sorts are used. */
module Sorting {

  function Insert<T>(before: (T, T) -> bool, x: T, sorted: seq<T>): seq<T> {
    if sorted == [] || before(x, sorted[0]) then [x] + sorted
    else [sorted[0]] + Insert(before, x, sorted[1..])
  }

  function Sort<T>(before: (T, T) -> bool, s: seq<T>): seq<T> {
    if s == [] then [] else Insert(before, s[0], Sort(before, s[1..]))
  }

  predicate Ordered<T>(before: (T, T) -> bool, s: seq<T>) {
    forall i, j :: 0 <= i < j < |s| ==> before(s[i], s[j])
  }

  ghost predicate TotalPreorder<T(!new)>(before: (T, T) -> bool) {
    (forall x, y :: before(x, y) || before(y, x))
    && forall x, y, z :: before(x, y) && before(y, z) ==> before(x, z)
  }

  lemma {:induction false} InsertKeeps<T(!new)>(before: (T, T) -> bool, x: T, s: seq<T>)
    requires TotalPreorder(before) && Ordered(before, s)
    ensures Ordered(before, Insert(before, x, s))
    ensures multiset(Insert(before, x, s)) == multiset(s) + multiset{x}
  {
    if s == [] || before(x, s[0]) {
      assert Insert(before, x, s) == [x] + s;
    } else {
      var tail := s[1..];
      var rest := Insert(before, x, tail);
      InsertKeeps(before, x, tail);
      assert s == [s[0]] + tail;
      forall j | 0 <= j < |rest| ensures before(s[0], rest[j]) {
        InsertedElement(tail, rest, x, j);
      }
      assert Insert(before, x, s) == [s[0]] + rest;
    }
  }

  lemma InsertedElement<T>(s: seq<T>, inserted: seq<T>, x: T, j: nat)
    requires multiset(inserted) == multiset(s) + multiset{x} && j < |inserted|
    ensures inserted[j] == x || exists i :: 0 <= i < |s| && s[i] == inserted[j]
  {
    assert inserted[j] in multiset(inserted);
    assert inserted[j] in multiset(s) || inserted[j] == x;
  }

  /** Sorting orders a list and keeps what is in it. */
  lemma {:induction false} SortKeeps<T(!new)>(before: (T, T) -> bool, s: seq<T>)
    requires TotalPreorder(before)
    ensures Ordered(before, Sort(before, s)) && multiset(Sort(before, s)) == multiset(s)
    ensures |Sort(before, s)| == |s|
  {
    if s != [] {
      SortKeeps(before, s[1..]);
      InsertKeeps(before, s[0], Sort(before, s[1..]));
      assert s == [s[0]] + s[1..];
    }
    assert |multiset(Sort(before, s))| == |multiset(s)|;
  }

  /** A list without one of its elements. */
  lemma Without<T>(s: seq<T>, k: nat)
    requires k < |s|
    ensures multiset(s[..k] + s[k + 1..]) == multiset(s) - multiset{s[k]}
  {
    assert s == s[..k] + ([s[k]] + s[k + 1..]);
  }
}
