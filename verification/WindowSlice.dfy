/** diffSortedWindowSlice (dock/window_slice.go). */
module WindowSlice {

  /** X window ids. */
  type Window = int

  ghost predicate Sorted(s: seq<Window>) {
    forall i, j :: 0 <= i < j < |s| ==> s[i] <= s[j]
  }

  /** The merge of two sorted slices: what to add and what to remove to get from a to b. */
  function Diff(a: seq<Window>, b: seq<Window>): (seq<Window>, seq<Window>)
    decreases |a| + |b|
  {
    if a == [] then (b, [])
    else if b == [] then ([], a)
    else if a[0] == b[0] then Diff(a[1..], b[1..])
    else if a[0] < b[0] then
      var (add, remove) := Diff(a[1..], b);
      (add, [a[0]] + remove)
    else
      var (add, remove) := Diff(a, b[1..]);
      ([b[0]] + add, remove)
  }

  lemma SortedTail(s: seq<Window>)
    requires Sorted(s) && s != []
    ensures Sorted(s[1..]) && multiset(s) == multiset{s[0]} + multiset(s[1..])
    ensures forall x :: x in s[1..] ==> s[0] <= x
  {
    assert s == [s[0]] + s[1..];
  }

  lemma SortedCons(x: Window, s: seq<Window>, t: seq<Window>)
    requires Sorted(s) && multiset(s) <= multiset(t)
    requires forall y :: y in t ==> x <= y
    ensures Sorted([x] + s)
  {
    forall i | 0 <= i < |s| ensures x <= s[i] {
      assert s[i] in multiset(s);
      assert s[i] in t;
    }
  }

  lemma CountCons(x: Window, s: seq<Window>, y: Window)
    ensures multiset([x] + s)[y] == multiset(s)[y] + if x == y then 1 else 0
  {
  }

  function Excess(m: nat, n: nat): nat {
    if m > n then m - n else 0
  }

  /** The difference, counted for one window. */
  lemma {:induction false} DiffCounts(a: seq<Window>, b: seq<Window>, y: Window)
    requires Sorted(a) && Sorted(b)
    ensures multiset(Diff(a, b).0)[y] == Excess(multiset(b)[y], multiset(a)[y])
    ensures multiset(Diff(a, b).1)[y] == Excess(multiset(a)[y], multiset(b)[y])
    decreases |a| + |b|
  {
    if a != [] && b != [] {
      SortedTail(a);
      SortedTail(b);
      if a[0] == b[0] {
        DiffCounts(a[1..], b[1..], y);
      } else if a[0] < b[0] {
        DiffCounts(a[1..], b, y);
        NotBelow(a[0], b);
        CountCons(a[0], Diff(a[1..], b).1, y);
      } else {
        DiffCounts(a, b[1..], y);
        NotBelow(b[0], a);
        CountCons(b[0], Diff(a, b[1..]).0, y);
      }
    }
  }

  /** For all sorted slices the two results are the exact multiset differences. */
  lemma DiffIsExact(a: seq<Window>, b: seq<Window>)
    requires Sorted(a) && Sorted(b)
    ensures multiset(Diff(a, b).0) == multiset(b) - multiset(a)
    ensures multiset(Diff(a, b).1) == multiset(a) - multiset(b)
  {
    forall y
      ensures multiset(Diff(a, b).0)[y] == (multiset(b) - multiset(a))[y]
      ensures multiset(Diff(a, b).1)[y] == (multiset(a) - multiset(b))[y]
    {
      DiffCounts(a, b, y);
    }
  }

  lemma NotBelow(x: Window, s: seq<Window>)
    requires Sorted(s) && s != [] && x < s[0]
    ensures x !in multiset(s)
  {
    assert x !in s;
  }

  /** The results are sorted too. */
  lemma {:induction false} DiffIsSorted(a: seq<Window>, b: seq<Window>)
    requires Sorted(a) && Sorted(b)
    ensures Sorted(Diff(a, b).0) && Sorted(Diff(a, b).1)
    decreases |a| + |b|
  {
    if a != [] && b != [] {
      SortedTail(a);
      SortedTail(b);
      if a[0] == b[0] {
        DiffIsSorted(a[1..], b[1..]);
      } else if a[0] < b[0] {
        DiffIsSorted(a[1..], b);
        DiffIsExact(a[1..], b);
        SortedCons(a[0], Diff(a[1..], b).1, a[1..]);
      } else {
        DiffIsSorted(a, b[1..]);
        DiffIsExact(a, b[1..]);
        SortedCons(b[0], Diff(a, b[1..]).0, b[1..]);
      }
    }
  }

  /** So removing the one and adding the other turns a into b. */
  lemma DiffApplies(a: seq<Window>, b: seq<Window>)
    requires Sorted(a) && Sorted(b)
    ensures multiset(a) - multiset(Diff(a, b).1) + multiset(Diff(a, b).0) == multiset(b)
  {
    DiffIsExact(a, b);
  }

  /** How much of the merge is done. */
  ghost predicate Merged(a: seq<Window>, b: seq<Window>, ia: nat, ib: nat, add: seq<Window>, remove: seq<Window>)
    requires ia <= |a| && ib <= |b|
  {
    && add + Diff(a[ia..], b[ib..]).0 == Diff(a, b).0
    && remove + Diff(a[ia..], b[ib..]).1 == Diff(a, b).1
  }

  lemma Reassociate(s: seq<Window>, x: Window, t: seq<Window>)
    ensures s + ([x] + t) == (s + [x]) + t
  {
  }

  lemma SkipBoth(a: seq<Window>, b: seq<Window>, ia: nat, ib: nat, add: seq<Window>, remove: seq<Window>)
    requires ia < |a| && ib < |b| && a[ia] == b[ib] && Merged(a, b, ia, ib, add, remove)
    ensures Merged(a, b, ia + 1, ib + 1, add, remove)
  {
    DiffStep(a, b, ia, ib);
  }

  lemma TakeRemoved(a: seq<Window>, b: seq<Window>, ia: nat, ib: nat, add: seq<Window>, remove: seq<Window>)
    requires ia < |a| && ib <= |b| && (ib < |b| ==> a[ia] < b[ib]) && Merged(a, b, ia, ib, add, remove)
    ensures Merged(a, b, ia + 1, ib, add, remove + [a[ia]])
  {
    DiffStep(a, b, ia, ib);
    Reassociate(remove, a[ia], Diff(a[ia + 1..], b[ib..]).1);
  }

  lemma TakeAdded(a: seq<Window>, b: seq<Window>, ia: nat, ib: nat, add: seq<Window>, remove: seq<Window>)
    requires ia <= |a| && ib < |b| && (ia < |a| ==> b[ib] < a[ia]) && Merged(a, b, ia, ib, add, remove)
    ensures Merged(a, b, ia, ib + 1, add + [b[ib]], remove)
  {
    DiffStep(a, b, ia, ib);
    Reassociate(add, b[ib], Diff(a[ia..], b[ib + 1..]).0);
  }

  lemma DiffStep(a: seq<Window>, b: seq<Window>, ia: nat, ib: nat)
    requires ia <= |a| && ib <= |b|
    ensures ia < |a| && ib < |b| && a[ia] == b[ib] ==> Diff(a[ia..], b[ib..]) == Diff(a[ia + 1..], b[ib + 1..])
    ensures ia < |a| && (ib < |b| ==> a[ia] < b[ib]) ==>
              && Diff(a[ia..], b[ib..]).0 == Diff(a[ia + 1..], b[ib..]).0
              && Diff(a[ia..], b[ib..]).1 == [a[ia]] + Diff(a[ia + 1..], b[ib..]).1
    ensures ib < |b| && (ia < |a| ==> b[ib] < a[ia]) ==>
              && Diff(a[ia..], b[ib..]).0 == [b[ib]] + Diff(a[ia..], b[ib + 1..]).0
              && Diff(a[ia..], b[ib..]).1 == Diff(a[ia..], b[ib + 1..]).1
  {
    if ia < |a| {
      assert a[ia..][1..] == a[ia + 1..] && a[ia..] == [a[ia]] + a[ia + 1..];
    }
    if ib < |b| {
      assert b[ib..][1..] == b[ib + 1..] && b[ib..] == [b[ib]] + b[ib + 1..];
    }
  }

  /** diffSortedWindowSlice, from a to b. */
  method DiffSortedWindowSlice(a: seq<Window>, b: seq<Window>) returns (add: seq<Window>, remove: seq<Window>)
    ensures add == Diff(a, b).0 && remove == Diff(a, b).1
  {
    add, remove := [], [];
    var ia, ib := 0, 0;
    assert a[0..] == a && b[0..] == b;
    while ia < |a| && ib < |b|
      invariant 0 <= ia <= |a| && 0 <= ib <= |b| && Merged(a, b, ia, ib, add, remove)
      decreases |a| - ia + |b| - ib
    {
      if a[ia] == b[ib] {
        SkipBoth(a, b, ia, ib, add, remove);
        ia, ib := ia + 1, ib + 1;
      } else if a[ia] < b[ib] {
        TakeRemoved(a, b, ia, ib, add, remove);
        remove := remove + [a[ia]];
        ia := ia + 1;
      } else {
        TakeAdded(a, b, ia, ib, add, remove);
        add := add + [b[ib]];
        ib := ib + 1;
      }
    }
    while ia < |a|
      invariant 0 <= ia <= |a| && 0 <= ib <= |b| && (ia == |a| || ib == |b|) && Merged(a, b, ia, ib, add, remove)
    {
      TakeRemoved(a, b, ia, ib, add, remove);
      remove := remove + [a[ia]];
      ia := ia + 1;
    }
    while ib < |b|
      invariant 0 <= ib <= |b| && ia == |a| && Merged(a, b, ia, ib, add, remove)
    {
      TakeAdded(a, b, ia, ib, add, remove);
      add := add + [b[ib]];
      ib := ib + 1;
    }
    assert Diff(a[ia..], b[ib..]) == ([], []);
  }
}
