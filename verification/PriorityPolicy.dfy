/** PriorityPolicy (audio/priority_policy.go): the ranked type list and the port
    list that must stay ordered by it. The functions give the value each
    operation leaves behind; the class performs the loops of the source. */
module PriorityPolicies {
  import opened Collections
  import opened PortRanking
  import opened SortPorts

  datatype Policy = Policy(types: seq<int>, ports: seq<Port>)

  function WithType(types: seq<int>, i: int): (r: seq<int>)
    ensures types <= r && i in r
  {
    if i in types then types else types + [i]
  }

  /** completeTypes for the first n types: append the missing ones in numeric order. */
  function Completed(types: seq<int>, n: nat): seq<int> {
    if n == 0 then types else WithType(Completed(types, n - 1), n - 1)
  }

  /** AddPort: before the first port that the new port's type is preferred to (or equals). */
  function AddIndex(types: seq<int>, ports: seq<Port>, p: Port): (i: nat)
    ensures i <= |ports|
  {
    if ports == [] then 0
    else if Prefer(types, p.kind, ports[0].kind) == p.kind then 0
    else 1 + AddIndex(types, ports[1..], p)
  }

  function Added(types: seq<int>, ports: seq<Port>, p: Port): seq<Port> {
    InsertAt(ports, p, AddIndex(types, ports, p))
  }

  /** FindPortIndex. */
  function FindIndex(ports: seq<Port>, key: Key): (i: int)
    ensures -1 <= i < |ports|
    ensures i >= 0 ==> KeyOf(ports[i]) == key && forall j :: 0 <= j < i ==> KeyOf(ports[j]) != key
    ensures i < 0 ==> forall j :: 0 <= j < |ports| ==> KeyOf(ports[j]) != key
  {
    if ports == [] then -1
    else if KeyOf(ports[0]) == key then 0
    else
      var i := FindIndex(ports[1..], key);
      if i < 0 then -1 else i + 1
  }

  function Select(ports: seq<Port>, keep: Port -> bool): seq<Port> {
    if ports == [] then []
    else if keep(ports[0]) then [ports[0]] + Select(ports[1..], keep)
    else Select(ports[1..], keep)
  }

  ghost function InKeys(ks: set<Key>): Port -> bool {
    p => KeyOf(p) in ks
  }

  function NotOnCard(card: string): Port -> bool {
    (p: Port) => p.card != card
  }

  function OtherKind(t: int): Port -> bool {
    (p: Port) => p.kind != t
  }

  /** The second loop of SetPorts: add every listed port whose key is still missing. */
  ghost function AddMissing(types: seq<int>, ports: seq<Port>, list: seq<Port>): seq<Port>
    decreases |list|
  {
    if list == [] then ports
    else
      var next := if KeyOf(list[0]) in Keys(ports) then ports else Added(types, ports, list[0]);
      AddMissing(types, next, list[1..])
  }

  /** SetPorts: drop what the hardware no longer has, then add what is new. */
  ghost function Reconciled(types: seq<int>, ports: seq<Port>, list: seq<Port>): seq<Port> {
    AddMissing(types, Select(ports, InKeys(Keys(list))), list)
  }

  function Without(types: seq<int>, t: int): seq<int> {
    if types == [] then []
    else if types[0] == t then Without(types[1..], t)
    else [types[0]] + Without(types[1..], t)
  }

  /** SetTheFirstType. */
  function TypeFirst(types: seq<int>, t: int): seq<int> {
    if 0 <= t < PORT_TYPE_COUNT then [t] + Without(types, t) else types
  }

  /** SetTheFirstPort: an exact stable partition, the chosen port, then its type, then the rest. */
  function PortFirst(ports: seq<Port>, i: nat): seq<Port>
    requires i < |ports|
  {
    var p, rest := ports[i], RemoveAt(ports, i);
    [p] + OfKind(rest, p.kind) + NotOfKind(rest, p.kind)
  }

  function FirstPortOf(ports: seq<Port>): Port {
    if ports != [] then ports[0] else Port("", "", PORT_TYPE_INVALID)
  }

  lemma AddMissingStep(types: seq<int>, ports: seq<Port>, list: seq<Port>, i: nat)
    requires i < |list|
    ensures AddMissing(types, ports, list[i..]) ==
            var next := if KeyOf(list[i]) in Keys(ports) then ports else Added(types, ports, list[i]);
            AddMissing(types, next, list[i + 1..])
  {
    assert list[i..][0] == list[i] && list[i..][1..] == list[i + 1..];
  }

  // ---- the completed ranking ----

  lemma {:induction false} CompletedExtends(types: seq<int>, n: nat)
    ensures types <= Completed(types, n)
  {
    if n > 0 {
      CompletedExtends(types, n - 1);
    }
  }

  lemma {:induction false} CompletedHas(types: seq<int>, n: nat, t: int)
    ensures t in Completed(types, n) <==> t in types || 0 <= t < n
  {
    if n > 0 {
      CompletedHas(types, n - 1, t);
    }
  }

  lemma {:induction false} CompletedDistinct(types: seq<int>, n: nat)
    requires Distinct(types)
    ensures Distinct(Completed(types, n))
  {
    if n > 0 {
      CompletedDistinct(types, n - 1);
    }
  }

  /** The completed ranking is a permutation of all types exactly when the given one had valid types, each once. */
  lemma CompletedExactly(types: seq<int>)
    ensures Complete(Completed(types, PORT_TYPE_COUNT)) <==>
            Distinct(types) && forall k :: 0 <= k < |types| ==> InRange(types[k])
  {
    var c := Completed(types, PORT_TYPE_COUNT);
    CompletedExtends(types, PORT_TYPE_COUNT);
    if Complete(c) {
      forall k | 0 <= k < |types| ensures InRange(types[k]) {
        assert types[k] == c[k];
      }
      forall k, l | 0 <= k < l < |types| ensures types[k] != types[l] {
        assert types[k] == c[k] && types[l] == c[l];
      }
    }
    if Distinct(types) && forall k :: 0 <= k < |types| ==> InRange(types[k]) {
      CompletedDistinct(types, PORT_TYPE_COUNT);
      forall k | 0 <= k < |c| ensures InRange(c[k]) {
        CompletedHas(types, PORT_TYPE_COUNT, c[k]);
      }
      forall t | InRange(t) ensures t in c {
        CompletedHas(types, PORT_TYPE_COUNT, t);
      }
    }
  }

  lemma {:induction false} CompletedNumbers(n: nat)
    ensures |Completed([], n)| == n && forall k :: 0 <= k < n ==> Completed([], n)[k] == k
  {
    if n > 0 {
      CompletedNumbers(n - 1);
    }
  }

  const DEFAULT_TYPES: seq<int> := [0, 1, 2, 3, 4, 5, 6, 7]

  lemma CompletedDefault()
    ensures Completed([], PORT_TYPE_COUNT) == DEFAULT_TYPES
  {
    CompletedNumbers(PORT_TYPE_COUNT);
  }

  // ---- helpers about selections ----

  lemma {:induction false} SelectConcat(a: seq<Port>, b: seq<Port>, keep: Port -> bool)
    ensures Select(a + b, keep) == Select(a, keep) + Select(b, keep)
  {
    if a == [] {
      assert a + b == b;
    } else {
      assert a + b == [a[0]] + (a[1..] + b);
      SelectConcat(a[1..], b, keep);
    }
  }

  lemma {:induction false} SelectAll(a: seq<Port>, keep: Port -> bool)
    requires forall i :: 0 <= i < |a| ==> keep(a[i])
    ensures Select(a, keep) == a
  {
    if a != [] {
      SelectAll(a[1..], keep);
    }
  }

  lemma {:induction false} SelectNone(a: seq<Port>, keep: Port -> bool)
    requires forall i :: 0 <= i < |a| ==> !keep(a[i])
    ensures Select(a, keep) == []
  {
    if a != [] {
      SelectNone(a[1..], keep);
    }
  }

  lemma {:induction false} SelectMembers(a: seq<Port>, keep: Port -> bool)
    ensures forall p :: p in Select(a, keep) <==> p in a && keep(p)
  {
    if a != [] {
      SelectMembers(a[1..], keep);
      assert a == [a[0]] + a[1..];
    }
  }

  lemma {:induction false} SelectSplit(a: seq<Port>, i: nat, keep: Port -> bool)
    requires i < |a|
    ensures Select(a, keep) == Select(a[..i], keep) + (if keep(a[i]) then [a[i]] else []) + Select(a[i + 1..], keep)
    ensures Select(RemoveAt(a, i), keep) == Select(a[..i], keep) + Select(a[i + 1..], keep)
  {
    assert a == a[..i] + ([a[i]] + a[i + 1..]);
    SelectConcat(a[..i], [a[i]] + a[i + 1..], keep);
    SelectConcat([a[i]], a[i + 1..], keep);
    SelectConcat(a[..i], a[i + 1..], keep);
  }

  lemma SelectWithout(a: seq<Port>, i: nat, keep: Port -> bool)
    requires i < |a| && !keep(a[i])
    ensures Select(RemoveAt(a, i), keep) == Select(a, keep)
  {
    SelectSplit(a, i, keep);
    var head := Select(a[..i], keep);
    assert head + [] == head;
  }

  lemma FirstMissing(ports: seq<Port>, i: nat, wanted: set<Key>)
    requires i < |ports| && KeyOf(ports[i]) !in wanted
    requires forall k :: 0 <= k < i ==> KeyOf(ports[k]) in wanted
    ensures FindIndex(ports, KeyOf(ports[i])) == i
  {
    var f := FindIndex(ports, KeyOf(ports[i]));
    assert 0 <= f <= i;
    assert KeyOf(ports[f]) == KeyOf(ports[i]);
  }

  lemma KeyListed(ports: seq<Port>, i: nat)
    requires i < |ports|
    ensures KeyOf(ports[i]) in Keys(ports)
  {
    assert ports[i] in ports;
  }

  lemma {:induction false} KindMembers(a: seq<Port>, t: int)
    ensures forall p :: p in OfKind(a, t) <==> p in a && p.kind == t
    ensures forall p :: p in NotOfKind(a, t) <==> p in a && p.kind != t
    ensures |OfKind(a, t)| + |NotOfKind(a, t)| == |a|
  {
    if a != [] {
      KindMembers(a[1..], t);
      assert a == [a[0]] + a[1..];
    }
  }

  /** The types DetectPortType returns are never PortTypeInvalid. */
  ghost predicate NoneInvalid(ports: seq<Port>) {
    forall k :: 0 <= k < |ports| ==> ports[k].kind != PORT_TYPE_INVALID
  }

  /** Whether sortPorts swaps two neighbours. */
  predicate Swaps(types: seq<int>, a: Port, b: Port) {
    a.kind != b.kind && Prefer(types, a.kind, b.kind) == b.kind
  }

  function Compared(types: seq<int>, ports: seq<Port>, j: nat): (r: seq<Port>)
    requires j + 1 < |ports|
    ensures |r| == |ports|
  {
    if Swaps(types, ports[j], ports[j + 1]) then ports[j := ports[j + 1]][j + 1 := ports[j]] else ports
  }

  lemma SwapsByRank(types: seq<int>, a: Port, b: Port)
    requires b.kind != PORT_TYPE_INVALID
    ensures Swaps(types, a, b) <==> PortRank(types, b) < PortRank(types, a)
  {
    PreferPicksSmallerRank(types, a.kind, b.kind);
  }

  /** Exactly which neighbours are swapped: different types, the second ranked better, or neither ranked and the
      second one invalid. */
  lemma SwapsExactly(types: seq<int>, a: Port, b: Port)
    ensures Swaps(types, a, b) <==>
            && a.kind != b.kind
            && (PortRank(types, b) < PortRank(types, a)
                || (a.kind !in types && b.kind !in types && b.kind == -1))
  {
    PreferPicksSmallerRank(types, a.kind, b.kind);
  }

  lemma ComparedPermutes(types: seq<int>, ports: seq<Port>, j: nat)
    requires j + 1 < |ports|
    ensures multiset(Compared(types, ports, j)) == multiset(ports)
  {
    var head, a, b, tail := ports[..j], ports[j], ports[j + 1], ports[j + 2..];
    assert ports == head + [a, b] + tail;
    assert ports[j := b][j + 1 := a] == head + [b, a] + tail;
    assert multiset([a, b]) == multiset([b, a]);
  }

  /** One comparison of the inner loop, seen on the whole list. */
  lemma InnerStep(types: seq<int>, before: seq<Port>, i: nat, j: nat)
    requires i <= j && j + 1 < |before| && before[j + 1].kind != PORT_TYPE_INVALID
    ensures var after := Compared(types, before, j);
            before[i..j] + Pass(types, before[j], before[j + 1..])
            == after[i..j + 1] + Pass(types, after[j + 1], after[j + 2..])
  {
    var rest, after := before[j + 1..], Compared(types, before, j);
    var out, next := PassStep(types, before[j], rest);
    SwapsByRank(types, before[j], before[j + 1]);
    assert after[j] == out && after[j + 1] == next;
    assert rest[1..] == before[j + 2..] == after[j + 2..];
    assert after[i..j + 1] == before[i..j] + [out];
    AppendOne(before[i..j], out, Pass(types, next, rest[1..]));
  }

  lemma AppendOne(a: seq<Port>, p: Port, b: seq<Port>)
    ensures a + ([p] + b) == (a + [p]) + b
  {
  }

  /** The list after the comparisons at places i to j - 1. */
  function Swept(types: seq<int>, start: seq<Port>, i: nat, j: nat): (r: seq<Port>)
    requires i <= j < |start|
    ensures |r| == |start|
  {
    if j == i then start else Compared(types, Swept(types, start, i, j - 1), j - 1)
  }

  lemma {:induction false} SweptPermutes(types: seq<int>, start: seq<Port>, i: nat, j: nat)
    requires i <= j < |start|
    ensures multiset(Swept(types, start, i, j)) == multiset(start)
  {
    if j > i {
      SweptPermutes(types, start, i, j - 1);
      ComparedPermutes(types, Swept(types, start, i, j - 1), j - 1);
    }
  }

  lemma {:induction false} SweptKeepsFront(types: seq<int>, start: seq<Port>, i: nat, j: nat)
    requires i <= j < |start|
    ensures Swept(types, start, i, j)[..i] == start[..i]
  {
    if j > i {
      SweptKeepsFront(types, start, i, j - 1);
      ComparedKeepsFront(types, Swept(types, start, i, j - 1), i, j - 1);
    }
  }

  lemma ComparedKeepsFront(types: seq<int>, ports: seq<Port>, i: nat, j: nat)
    requires i <= j && j + 1 < |ports|
    ensures Compared(types, ports, j)[..i] == ports[..i]
  {
  }

  lemma {:induction false} SweptPasses(types: seq<int>, start: seq<Port>, i: nat, j: nat)
    requires i <= j < |start| && NoneInvalid(start)
    ensures var s := Swept(types, start, i, j);
            s[i..j] + Pass(types, s[j], s[j + 1..]) == Pass(types, start[i], start[i + 1..])
  {
    if j == i {
      var p := Pass(types, start[i], start[i + 1..]);
      assert start[i..i] == [] && [] + p == p;
    } else {
      var before := Swept(types, start, i, j - 1);
      SweptPasses(types, start, i, j - 1);
      assert before[j].kind != PORT_TYPE_INVALID by {
        SweptPermutes(types, start, i, j - 1);
        SameKinds(start, before);
      }
      InnerStep(types, before, i, j - 1);
    }
  }

  lemma SweptAll(types: seq<int>, start: seq<Port>, i: nat)
    requires i < |start|
    ensures var ports := Swept(types, start, i, |start| - 1);
            && multiset(ports) == multiset(start) && ports[..i] == start[..i]
            && (NoneInvalid(start) ==> ports[i..] == Pass(types, start[i], start[i + 1..]))
  {
    SweptPermutes(types, start, i, |start| - 1);
    SweptKeepsFront(types, start, i, |start| - 1);
    if NoneInvalid(start) {
      SweptToEnd(types, start, i);
    }
  }

  lemma SweptToEnd(types: seq<int>, start: seq<Port>, i: nat)
    requires i < |start| && NoneInvalid(start)
    ensures Swept(types, start, i, |start| - 1)[i..] == Pass(types, start[i], start[i + 1..])
  {
    SweptPasses(types, start, i, |start| - 1);
    LastPlace(types, Swept(types, start, i, |start| - 1), i);
  }

  lemma LastPlace(types: seq<int>, ports: seq<Port>, i: nat)
    requires i < |ports|
    ensures var j := |ports| - 1; ports[i..j] + Pass(types, ports[j], ports[j + 1..]) == ports[i..]
  {
    var j := |ports| - 1;
    assert ports[j + 1..] == [] && ports[i..] == ports[i..j] + [ports[j]];
  }

  /** One pass of the outer loop fixes one more leading position. */
  lemma OuterStep(types: seq<int>, before: seq<Port>, after: seq<Port>, i: nat)
    requires i + 1 < |before| == |after|
    requires after[..i] == before[..i]
    requires after[i..] == Pass(types, before[i], before[i + 1..])
    ensures before[..i] + SortOnce(types, before[i..]) == after[..i + 1] + SortOnce(types, after[i + 1..])
  {
    var a, b := before[i..], after[i..];
    assert a[0] == before[i] && a[1..] == before[i + 1..];
    assert b[1..] == after[i + 1..];
    var s := SortOnce(types, b[1..]);
    assert SortOnce(types, a) == [b[0]] + s;
    assert after[..i + 1] == after[..i] + [b[0]];
    assert after[..i] + ([b[0]] + s) == (after[..i] + [b[0]]) + s;
  }

  lemma SameKinds(a: seq<Port>, b: seq<Port>)
    requires multiset(a) == multiset(b) && NoneInvalid(a)
    ensures NoneInvalid(b)
  {
    forall k | 0 <= k < |b| ensures b[k].kind != PORT_TYPE_INVALID {
      assert b[k] in multiset(b);
      assert b[k] in a;
    }
  }

  lemma KindStep(full: seq<Port>, i: nat, kind: int)
    requires i < |full|
    ensures full[i..] == [full[i]] + full[i + 1..]
    ensures OfKind(full[..i + 1], kind) == OfKind(full[..i], kind) + if full[i].kind == kind then [full[i]] else []
    ensures NotOfKind(full[..i + 1], kind)
            == NotOfKind(full[..i], kind) + if full[i].kind == kind then [] else [full[i]]
  {
    assert full[..i + 1] == full[..i] + [full[i]];
    OfKindConcat(full[..i], [full[i]], kind);
    assert [full[i]][1..] == [];
  }

  lemma MoveForward(a: seq<Port>, b: seq<Port>, p: Port, c: seq<Port>)
    ensures var all := a + b + ([p] + c);
            && |a + b| < |all|
            && all[|a + b|] == p
            && InsertAt(RemoveAt(all, |a + b|), p, |a|) == (a + [p]) + b + c
  {
    var all := a + b + ([p] + c);
    assert RemoveAt(all, |a + b|) == a + b + c;
    assert (a + b + c)[..|a|] == a && (a + b + c)[|a|..] == b + c;
  }

  /** The loop state of the mutate-while-ranging loop: the first i ports partitioned, the rest untouched. */
  ghost function Raised(full: seq<Port>, i: nat, kind: int): seq<Port>
    requires i <= |full|
  {
    OfKind(full[..i], kind) + NotOfKind(full[..i], kind) + full[i..]
  }

  lemma RaiseStep(full: seq<Port>, i: nat, kind: int)
    requires i < |full|
    ensures var ports, pos := Raised(full, i, kind), |OfKind(full[..i], kind)|;
            && |ports| == |full|
            && ports[i] == full[i]
            && pos <= i
            && Raised(full, i + 1, kind) ==
               (if full[i].kind == kind then InsertAt(RemoveAt(ports, i), full[i], pos) else ports)
            && |OfKind(full[..i + 1], kind)| == (if full[i].kind == kind then pos + 1 else pos)
  {
    var a, b, c := OfKind(full[..i], kind), NotOfKind(full[..i], kind), full[i + 1..];
    assert |a| + |b| == i by {
      KindMembers(full[..i], kind);
    }
    KindStep(full, i, kind);
    MoveForward(a, b, full[i], c);
    StayBehind(a, b, full[i], c);
  }

  lemma RaiseEnds(full: seq<Port>, kind: int)
    ensures Raised(full, 0, kind) == full && |OfKind(full[..0], kind)| == 0
    ensures Raised(full, |full|, kind) == OfKind(full, kind) + NotOfKind(full, kind)
  {
    assert full[..0] == [] && full[0..] == full;
    assert full[..|full|] == full && full[|full|..] == [];
  }

  lemma StayBehind(a: seq<Port>, b: seq<Port>, p: Port, c: seq<Port>)
    ensures (a + b) + ([p] + c) == a + (b + [p]) + c
  {
  }

  class PriorityPolicy {
    var types: seq<int>
    var ports: seq<Port>

    constructor ()
      ensures types == [] && ports == []
    {
      types, ports := [], [];
    }

    ghost function View(): Policy
      reads this
    {
      Policy(types, ports)
    }

    /** completeTypes. */
    method CompleteTypes()
      modifies this`types
      ensures types == Completed(old(types), PORT_TYPE_COUNT)
      ensures old(types) <= types
      ensures Complete(types) <==> Distinct(old(types)) && forall i :: 0 <= i < |old(types)| ==> InRange(old(types)[i])
      ensures old(types) == [] ==> types == DEFAULT_TYPES
    {
      var i := 0;
      while i < PORT_TYPE_COUNT
        invariant 0 <= i <= PORT_TYPE_COUNT
        invariant types == Completed(old(types), i)
      {
        if i !in types {
          types := types + [i];
        }
        i := i + 1;
      }
      CompletedExtends(old(types), PORT_TYPE_COUNT);
      CompletedExactly(old(types));
      CompletedDefault();
    }

    /** GetPreferType. */
    method GetPreferType(a: int, b: int) returns (t: int)
      ensures t == Prefer(types, a, b)
    {
      var i := 0;
      while i < |types|
        invariant 0 <= i <= |types|
        invariant Prefer(types, a, b) == Prefer(types[i..], a, b)
      {
        if types[i] == a || types[i] == b {
          return types[i];
        }
        i := i + 1;
      }
      return -1;
    }

    /** sortPorts. Only a port of type -1, which no detection produces, could be swapped against its rank. */
    method SortPorts()
      modifies this`ports
      ensures multiset(ports) == multiset(old(ports))
      ensures NoneInvalid(old(ports)) ==> ports == SortOnce(types, old(ports))
    {
      var length := |ports|;
      ghost var was := ports;
      var i := 0;
      while i + 1 < length
        invariant 0 <= i <= length == |ports|
        invariant length == 0 || i < length
        invariant multiset(ports) == multiset(was)
        invariant NoneInvalid(was) ==> SortOnce(types, was) == ports[..i] + SortOnce(types, ports[i..])
      {
        ghost var start := ports;
        InnerLoop(i);
        if NoneInvalid(was) {
          SameKinds(was, start);
          OuterStep(types, start, ports, i);
        }
        i := i + 1;
      }
      assert ports == ports[..i] + ports[i..];
    }

    /** The inner loop of sortPorts. */
    method InnerLoop(i: nat)
      requires i + 1 < |ports|
      modifies this`ports
      ensures multiset(ports) == multiset(old(ports)) && |ports| == |old(ports)|
      ensures ports[..i] == old(ports)[..i]
      ensures NoneInvalid(old(ports)) ==> ports[i..] == Pass(types, old(ports)[i], old(ports)[i + 1..])
    {
      var length := |ports|;
      ghost var start := ports;
      var j := i;
      while j + 1 < length
        invariant i <= j < length == |start|
        invariant ports == Swept(types, start, i, j)
      {
        CompareAndSwap(j);
        j := j + 1;
      }
      SweptAll(types, start, i);
    }

    method CompareAndSwap(j: nat)
      requires j + 1 < |ports|
      modifies this`ports
      ensures ports == Compared(types, old(ports), j)
    {
      var port1, port2 := ports[j], ports[j + 1];
      var prefer := GetPreferType(port1.kind, port2.kind);
      if port1.kind != port2.kind && prefer == port2.kind {
        ports := ports[j := port2][j + 1 := port1];
      }
    }

    method FindPortIndex(key: Key) returns (i: int)
      ensures i == FindIndex(ports, key)
    {
      i := 0;
      while i < |ports|
        invariant 0 <= i <= |ports|
        invariant forall j :: 0 <= j < i ==> KeyOf(ports[j]) != key
      {
        if KeyOf(ports[i]) == key {
          return;
        }
        i := i + 1;
      }
      i := -1;
    }

    method InsertPortBeforeIndex(p: Port, index: int)
      modifies this`ports
      ensures var n := |old(ports)|;
              ports == InsertAt(old(ports), p, if index < 0 then 0 else if index > n then n else index)
    {
      var i := if index < 0 then 0 else if index > |ports| then |ports| else index;
      var tail := ports[i..];
      ports := ports[..i] + [p];
      ports := ports + tail;
    }

    /** AddPort (and AddRawPort, whose type is the detected one). */
    method AddPort(p: Port) returns (index: int)
      modifies this`ports
      ensures index == AddIndex(types, old(ports), p)
      ensures ports == Added(types, old(ports), p)
    {
      var i := 0;
      while i < |ports|
        invariant 0 <= i <= |ports|
        invariant ports == old(ports) && types == old(types)
        invariant AddIndex(types, ports, p) == i + AddIndex(types, ports[i..], p)
      {
        assert ports[i..][0] == ports[i] && ports[i..][1..] == ports[i + 1..];
        var prefer := GetPreferType(p.kind, ports[i].kind);
        if prefer == p.kind {
          InsertPortBeforeIndex(p, i);
          return i;
        }
        i := i + 1;
      }
      assert ports[i..] == [];
      index := |ports|;
      ports := ports + [p];
    }

    method RemovePortByIndex(index: int) returns (ok: bool)
      modifies this`ports
      ensures ok <==> 0 <= index < |old(ports)|
      ensures ports == if ok then RemoveAt(old(ports), index) else old(ports)
    {
      if index < 0 || index >= |ports| {
        return false;
      }
      ports := ports[..index] + ports[index + 1..];
      return true;
    }

    method RemovePortByName(key: Key) returns (ok: bool)
      modifies this`ports
      ensures ok <==> key in Keys(old(ports))
      ensures ports == if ok then RemoveAt(old(ports), FindIndex(old(ports), key)) else old(ports)
    {
      var index := FindPortIndex(key);
      if index >= 0 {
        assert ports[index] in ports;
      }
      ok := RemovePortByIndex(index);
    }

    /** SetPorts. */
    method SetPorts(list: seq<Port>)
      modifies this`ports
      ensures ports == Reconciled(types, old(ports), list)
    {
      DropUnlisted(list);
      AddUnknown(list);
    }

    /** The first loop of SetPorts, which removes from the list it walks. */
    method DropUnlisted(list: seq<Port>)
      modifies this`ports
      ensures ports == Select(old(ports), InKeys(Keys(list)))
    {
      ghost var keep := InKeys(Keys(list));
      ghost var was := ports;
      var count := |ports|;
      var i := 0;
      while i < count
        invariant 0 <= i <= count == |ports|
        invariant forall k :: 0 <= k < i ==> KeyOf(ports[k]) in Keys(list)
        invariant Select(ports, keep) == Select(was, keep)
        decreases count - i
      {
        var p := ports[i];
        var valid := HasElement(list, p);
        if !valid {
          FirstMissing(ports, i, Keys(list));
          KeyListed(ports, i);
          SelectWithout(ports, i, keep);
          var _ := RemovePortByName(KeyOf(p));
          count := count - 1;
        } else {
          i := i + 1;
        }
      }
      SelectAll(ports, keep);
    }

    /** The second loop of SetPorts. */
    method AddUnknown(list: seq<Port>)
      modifies this`ports
      ensures ports == AddMissing(types, old(ports), list)
    {
      ghost var kept := ports;
      var count := |list|;
      var i := 0;
      while i < count
        invariant 0 <= i <= count == |list|
        invariant AddMissing(types, ports, list[i..]) == AddMissing(types, kept, list)
      {
        var p := list[i];
        AddMissingStep(types, ports, list, i);
        var present := HasElement(ports, p);
        if !present {
          var _ := AddPort(p);
        }
        i := i + 1;
      }
      assert list[i..] == [];
    }

    method GetTheFirstPort() returns (p: Port)
      ensures p == FirstPortOf(ports)
      ensures p == if ports == [] then Port("", "", -1) else ports[0]
    {
      if |ports| > 0 {
        p := ports[0];
      } else {
        p := Port("", "", PORT_TYPE_INVALID);
      }
    }

    /** SetTheFirstType: ranks the type first and deliberately leaves the ports alone. */
    method SetTheFirstType(t: int) returns (ok: bool)
      modifies this`types
      ensures ok <==> InRange(t)
      ensures types == TypeFirst(old(types), t)
    {
      if t < 0 || t >= PORT_TYPE_COUNT {
        return false;
      }
      var newTypes := [t];
      var i := 0;
      while i < |types|
        invariant 0 <= i <= |types|
        invariant newTypes + Without(types[i..], t) == [t] + Without(types, t)
      {
        if types[i] != t {
          newTypes := newTypes + [types[i]];
        }
        i := i + 1;
      }
      types := newTypes;
      return true;
    }

    /** SetTheFirstPort. */
    method SetTheFirstPort(key: Key) returns (ok: bool)
      modifies this`types, this`ports
      ensures ok <==> key in Keys(old(ports))
      ensures !ok ==> types == old(types) && ports == old(ports)
      ensures ok ==>
                var i := FindIndex(old(ports), key);
                && i >= 0
                && types == TypeFirst(old(types), old(ports)[i].kind)
                && ports == PortFirst(old(ports), i)
    {
      var index := FindPortIndex(key);
      if index < 0 {
        return false;
      }
      assert ports[index] in ports;
      var kind := ports[index].kind;
      var _ := SetTheFirstType(kind);
      var p := ports[index];
      ghost var rest := RemoveAt(ports, index);
      var _ := RemovePortByIndex(index);
      InsertPortBeforeIndex(p, 0);
      ghost var full := ports;
      assert full == [p] + rest;

      RaiseKind(kind);
      assert full[1..] == rest;
      return true;
    }

    /** The final loop of SetTheFirstPort, which ranges over the slice it changes. Position i still holds
        what it held before the loop when the loop gets there (RaiseStep), so it makes no difference
        whether the range reads the live slice or a copy. */
    method RaiseKind(kind: int)
      modifies this`ports
      ensures ports == OfKind(old(ports), kind) + NotOfKind(old(ports), kind)
    {
      ghost var full := ports;
      RaiseEnds(full, kind);
      var insertPos := 0;
      var n := |ports|;
      var i := 0;
      while i < n
        invariant 0 <= i <= n == |full|
        invariant insertPos == |OfKind(full[..i], kind)|
        invariant ports == Raised(full, i, kind)
      {
        RaiseStep(full, i, kind);
        var p := ports[i];
        if p.kind == kind {
          var _ := RemovePortByIndex(i);
          InsertPortBeforeIndex(p, insertPos);
          insertPos := insertPos + 1;
        }
        i := i + 1;
      }
    }

    /** RemoveCard. */
    method RemoveCard(card: string)
      modifies this`ports
      ensures ports == Select(old(ports), NotOnCard(card))
    {
      ghost var keep := NotOnCard(card);
      ghost var was := ports;
      var i := 0;
      while i < |ports|
        invariant 0 <= i <= |ports|
        invariant forall k :: 0 <= k < i ==> ports[k].card != card
        invariant Select(ports, keep) == Select(was, keep)
        decreases |ports| - i
      {
        if ports[i].card == card {
          SelectSplit(ports, i, keep);
          var _ := RemovePortByIndex(i);
        } else {
          i := i + 1;
        }
      }
      SelectAll(ports, keep);
    }
  }

  /** PriorityPortList.hasElement. */
  method HasElement(list: seq<Port>, p: Port) returns (found: bool)
    ensures found <==> KeyOf(p) in Keys(list)
  {
    var i := 0;
    while i < |list|
      invariant 0 <= i <= |list|
      invariant forall k :: 0 <= k < i ==> KeyOf(list[k]) != KeyOf(p)
    {
      if KeyOf(list[i]) == KeyOf(p) {
        assert list[i] in list;
        return true;
      }
      i := i + 1;
    }
    return false;
  }
}
