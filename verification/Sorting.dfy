/** JavaScript's stable `Array.prototype.sort`, as an insertion of the elements one by one. */
module Sorting {

  /** Insert `x` behind every element that does not come strictly after it. */
  function Insert<T>(x: T, sorted: seq<T>, less: (T, T) -> bool): seq<T> {
    if sorted == [] then [x]
    else
      var n := |sorted| - 1;
      if less(x, sorted[n]) then Insert(x, sorted[..n], less) + [sorted[n]] else sorted + [x]
  }

  function StableSort<T>(list: seq<T>, less: (T, T) -> bool): seq<T> {
    if list == [] then []
    else Insert(list[|list| - 1], StableSort(list[..|list| - 1], less), less)
  }

  /** `less` is a strict order whose incomparability is transitive, as a comparator must be. */
  ghost predicate IsComparator<T(!new)>(less: (T, T) -> bool) {
    && (forall x :: !less(x, x))
    && (forall x, y, z :: less(x, y) && less(y, z) ==> less(x, z))
    && (forall x, y, z :: !less(x, y) && !less(y, z) ==> !less(x, z))
  }

  ghost predicate Sorted<T>(list: seq<T>, less: (T, T) -> bool) {
    forall i, j :: 0 <= i < j < |list| ==> !less(list[j], list[i])
  }

  lemma {:induction false} InsertPermutes<T>(x: T, sorted: seq<T>, less: (T, T) -> bool)
    ensures multiset(Insert(x, sorted, less)) == multiset(sorted) + multiset{x}
  {
    if sorted != [] {
      var n := |sorted| - 1;
      assert sorted == sorted[..n] + [sorted[n]];
      if less(x, sorted[n]) { InsertPermutes(x, sorted[..n], less); }
    }
  }

  lemma {:induction false} StableSortPermutes<T>(list: seq<T>, less: (T, T) -> bool)
    ensures multiset(StableSort(list, less)) == multiset(list)
    ensures |StableSort(list, less)| == |list|
  {
    if list != [] {
      var n := |list| - 1;
      assert list == list[..n] + [list[n]];
      StableSortPermutes(list[..n], less);
      InsertPermutes(list[n], StableSort(list[..n], less), less);
    }
    assert |multiset(StableSort(list, less))| == |StableSort(list, less)|;
    assert |multiset(list)| == |list|;
  }

  /** What no element of the list comes after still comes after none, if the new element is no exception. */
  lemma InsertBelow<T(!new)>(x: T, list: seq<T>, last: T, less: (T, T) -> bool)
    requires !less(last, x) && forall i :: 0 <= i < |list| ==> !less(last, list[i])
    ensures forall i :: 0 <= i < |Insert(x, list, less)| ==> !less(last, Insert(x, list, less)[i])
  {
    var front := Insert(x, list, less);
    InsertPermutes(x, list, less);
    forall i | 0 <= i < |front| ensures !less(last, front[i]) {
      assert front[i] in multiset(front);
      if front[i] != x { assert front[i] in list; }
    }
  }

  lemma {:induction false} InsertSorted<T(!new)>(x: T, sorted: seq<T>, less: (T, T) -> bool)
    requires IsComparator(less) && Sorted(sorted, less)
    ensures Sorted(Insert(x, sorted, less), less)
  {
    if sorted != [] {
      var n := |sorted| - 1;
      var last := sorted[n];
      if less(x, last) {
        var front := Insert(x, sorted[..n], less);
        InsertSorted(x, sorted[..n], less);
        InsertBelow(x, sorted[..n], last, less);
      } else {
        forall i | 0 <= i < n ensures !less(x, sorted[i]) {
          assert !less(last, sorted[i]) && !less(x, last);
        }
      }
    }
  }

  lemma {:induction false} StableSortSorted<T(!new)>(list: seq<T>, less: (T, T) -> bool)
    requires IsComparator(less)
    ensures Sorted(StableSort(list, less), less)
  {
    if list != [] {
      var n := |list| - 1;
      StableSortSorted(list[..n], less);
      InsertSorted(list[n], StableSort(list[..n], less), less);
    }
  }

  /** Elements equal under `less` keep their order: they form the same subsequence before and after. */
  function Peers<T>(x: T, list: seq<T>, less: (T, T) -> bool): seq<T> {
    if list == [] then []
    else
      var n := |list| - 1;
      var rest := Peers(x, list[..n], less);
      if !less(x, list[n]) && !less(list[n], x) then rest + [list[n]] else rest
  }

  lemma {:induction false} PeersAppend<T>(x: T, list: seq<T>, y: T, less: (T, T) -> bool)
    ensures Peers(x, list + [y], less) ==
      if !less(x, y) && !less(y, x) then Peers(x, list, less) + [y] else Peers(x, list, less)
  {
    assert (list + [y])[..|list|] == list;
  }

  lemma {:induction false} InsertStable<T(!new)>(x: T, y: T, sorted: seq<T>, less: (T, T) -> bool)
    requires IsComparator(less) && Sorted(sorted, less)
    ensures Peers(x, Insert(y, sorted, less), less) == Peers(x, sorted + [y], less)
  {
    PeersAppend(x, sorted, y, less);
    if sorted == [] {
      assert [] + [y] == [y];
    } else {
      var n := |sorted| - 1;
      var last := sorted[n];
      if less(y, last) {
        InsertStable(x, y, sorted[..n], less);
        PeersAppend(x, Insert(y, sorted[..n], less), last, less);
        PeersAppend(x, sorted[..n], y, less);
      }
    }
  }

  lemma {:induction false} StableSortStable<T(!new)>(x: T, list: seq<T>, less: (T, T) -> bool)
    requires IsComparator(less)
    ensures Peers(x, StableSort(list, less), less) == Peers(x, list, less)
  {
    if list != [] {
      var n := |list| - 1;
      StableSortStable(x, list[..n], less);
      StableSortSorted(list[..n], less);
      InsertStable(x, list[n], StableSort(list[..n], less), less);
      PeersAppend(x, StableSort(list[..n], less), list[n], less);
      PeersAppend(x, list[..n], list[n], less);
      assert list == list[..n] + [list[n]];
    }
  }

  lemma {:induction false} PeersInOrder<T>(x: T, list: seq<T>, i: nat, j: nat, less: (T, T) -> bool)
    returns (a: nat, b: nat)
    requires i < j < |list|
    requires !less(x, list[i]) && !less(list[i], x) && !less(x, list[j]) && !less(list[j], x)
    ensures a < b < |Peers(x, list, less)|
    ensures Peers(x, list, less)[a] == list[i] && Peers(x, list, less)[b] == list[j]
  {
    var n := |list| - 1;
    if j < n {
      a, b := PeersInOrder(x, list[..n], i, j, less);
    } else {
      a := PeersHas(x, list[..n], i, less);
      b := |Peers(x, list, less)| - 1;
    }
  }

  lemma {:induction false} PeersHas<T>(x: T, list: seq<T>, i: nat, less: (T, T) -> bool) returns (a: nat)
    requires i < |list| && !less(x, list[i]) && !less(list[i], x)
    ensures a < |Peers(x, list, less)| && Peers(x, list, less)[a] == list[i]
  {
    var n := |list| - 1;
    if i < n { a := PeersHas(x, list[..n], i, less); } else { a := |Peers(x, list, less)| - 1; }
  }

  /** Peers taken from a list keep the list's order. */
  lemma {:induction false} PeersFrom<T>(x: T, list: seq<T>, a: nat, b: nat, less: (T, T) -> bool)
    returns (i: nat, j: nat)
    requires a < b < |Peers(x, list, less)|
    ensures i < j < |list| && list[i] == Peers(x, list, less)[a] && list[j] == Peers(x, list, less)[b]
  {
    var n := |list| - 1;
    var rest := Peers(x, list[..n], less);
    if b < |rest| {
      i, j := PeersFrom(x, list[..n], a, b, less);
    } else {
      i := PeerFrom(x, list[..n], a, less);
      j := n;
    }
  }

  lemma {:induction false} PeerFrom<T>(x: T, list: seq<T>, a: nat, less: (T, T) -> bool) returns (i: nat)
    requires a < |Peers(x, list, less)|
    ensures i < |list| && list[i] == Peers(x, list, less)[a]
  {
    var n := |list| - 1;
    if a < |Peers(x, list[..n], less)| { i := PeerFrom(x, list[..n], a, less); } else { i := n; }
  }

  /** Two elements of the sorted list that are equal under `less` stood in the same order before. */
  lemma TiesKeepOrder<T(!new)>(list: seq<T>, less: (T, T) -> bool, i: nat, j: nat) returns (a: nat, b: nat)
    requires IsComparator(less) && i < j < |StableSort(list, less)|
    requires !less(StableSort(list, less)[i], StableSort(list, less)[j])
    ensures a < b < |list| && list[a] == StableSort(list, less)[i] && list[b] == StableSort(list, less)[j]
  {
    var sorted := StableSort(list, less);
    var x := sorted[i];
    StableSortSorted(list, less);
    StableSortStable(x, list, less);
    var c, d := PeersInOrder(x, sorted, i, j, less);
    a, b := PeersFrom(x, list, c, d, less);
  }

  ghost predicate TotalOn<T(!new)>(list: seq<T>, less: (T, T) -> bool) {
    forall x, y :: x in list && y in list && !less(x, y) && !less(y, x) ==> x == y
  }

  lemma LastAgrees<T(!new)>(a: seq<T>, b: seq<T>, less: (T, T) -> bool)
    requires IsComparator(less) && Sorted(a, less) && Sorted(b, less) && multiset(a) == multiset(b) && TotalOn(a, less)
    requires a != [] && |a| == |b|
    ensures a[|a| - 1] == b[|b| - 1]
  {
    var n := |a| - 1;
    assert a[n] in multiset(a) && b[n] in multiset(b);
    assert a[n] in b && b[n] in a;
    var i :| 0 <= i <= n && b[i] == a[n];
    var j :| 0 <= j <= n && a[j] == b[n];
    assert !less(b[n], b[i]) && !less(a[n], a[j]);
  }

  lemma DropLast<T>(a: seq<T>)
    requires a != []
    ensures multiset(a[..|a| - 1]) == multiset(a) - multiset{a[|a| - 1]}
  {
    assert a == a[..|a| - 1] + [a[|a| - 1]];
  }

  lemma SameSize<T>(a: seq<T>, b: seq<T>)
    requires multiset(a) == multiset(b)
    ensures |a| == |b|
  {
    assert |multiset(a)| == |a| && |multiset(b)| == |b|;
  }

  lemma EqualFronts<T>(a: seq<T>, b: seq<T>)
    requires multiset(a) == multiset(b) && a != [] && |a| == |b| && a[|a| - 1] == b[|b| - 1]
    ensures multiset(a[..|a| - 1]) == multiset(b[..|b| - 1])
  {
    DropLast(a);
    DropLast(b);
  }

  lemma FrontSorted<T(!new)>(a: seq<T>, less: (T, T) -> bool)
    requires a != [] && Sorted(a, less)
    ensures Sorted(a[..|a| - 1], less)
    ensures TotalOn(a, less) ==> TotalOn(a[..|a| - 1], less)
  {
    forall x | x in a[..|a| - 1] ensures x in a {}
  }

  /** With a total order there is only one way to sort a collection. */
  lemma {:induction false} SortedUnique<T(!new)>(a: seq<T>, b: seq<T>, less: (T, T) -> bool)
    requires IsComparator(less) && Sorted(a, less) && Sorted(b, less) && multiset(a) == multiset(b) && TotalOn(a, less)
    ensures a == b
  {
    SameSize(a, b);
    if a != [] {
      var n := |a| - 1;
      LastAgrees(a, b, less);
      EqualFronts(a, b);
      FrontSorted(a, less);
      FrontSorted(b, less);
      SortedUnique(a[..n], b[..n], less);
      assert a == a[..n] + [a[n]] && b == b[..n] + [b[n]];
    }
  }
}
