/** The vocabulary of audio/priority_policy.go: ports, the ranked list of port
    types, and what it means for a port list to be ordered by that ranking. */
module PortRanking {

  /** PortTypeCount and PortTypeInvalid. */
  const PORT_TYPE_COUNT: int := 8
  const PORT_TYPE_INVALID: int := -1

  datatype Port = Port(card: string, name: string, kind: int)

  /** The identity used by hasElement and FindPortIndex: card and port name, not the type. */
  datatype Key = Key(card: string, name: string)

  function KeyOf(p: Port): Key {
    Key(p.card, p.name)
  }

  ghost function Keys(ports: seq<Port>): set<Key> {
    set p | p in ports :: KeyOf(p)
  }

  /** Position of a type in the ranking; types that are not listed rank last. */
  function Rank(types: seq<int>, t: int): (r: nat)
    ensures r <= |types|
    ensures r < |types| <==> t in types
    ensures r < |types| ==> types[r] == t
  {
    if types == [] then 0 else if types[0] == t then 0 else 1 + Rank(types[1..], t)
  }

  function PortRank(types: seq<int>, p: Port): nat {
    Rank(types, p.kind)
  }

  /** GetPreferType: whichever of the two types comes first in the ranking. */
  function Prefer(types: seq<int>, a: int, b: int): int {
    if types == [] then -1
    else if types[0] == a || types[0] == b then types[0]
    else Prefer(types[1..], a, b)
  }

  /** GetPreferType picks the type of smaller rank, and -1 exactly when neither type is listed. */
  lemma {:induction false} PreferPicksSmallerRank(types: seq<int>, a: int, b: int)
    ensures a !in types && b !in types ==> Prefer(types, a, b) == -1
    ensures a in types || b in types ==>
              Prefer(types, a, b) == if Rank(types, a) <= Rank(types, b) then a else b
  {
    if types != [] && types[0] != a && types[0] != b {
      PreferPicksSmallerRank(types[1..], a, b);
    }
  }

  ghost predicate Distinct<T(!new)>(s: seq<T>) {
    forall i, j :: 0 <= i < j < |s| ==> s[i] != s[j]
  }

  ghost predicate InRange(t: int) {
    0 <= t < PORT_TYPE_COUNT
  }

  /** The ranking is a permutation of all port types. */
  ghost predicate Complete(types: seq<int>) {
    && Distinct(types)
    && (forall i :: 0 <= i < |types| ==> InRange(types[i]))
    && (forall t: int :: InRange(t) ==> t in types)
  }

  ghost predicate AllInRange(ports: seq<Port>) {
    forall i :: 0 <= i < |ports| ==> InRange(ports[i].kind)
  }

  /** The port list follows the type ranking. */
  ghost predicate Ordered(types: seq<int>, ports: seq<Port>) {
    forall i, j :: 0 <= i < j < |ports| ==> PortRank(types, ports[i]) <= PortRank(types, ports[j])
  }

  ghost predicate DistinctKeys(ports: seq<Port>) {
    forall i, j :: 0 <= i < j < |ports| ==> KeyOf(ports[i]) != KeyOf(ports[j])
  }

  /** The ports of one type, in list order. */
  function OfKind(ports: seq<Port>, t: int): seq<Port> {
    if ports == [] then []
    else if ports[0].kind == t then [ports[0]] + OfKind(ports[1..], t)
    else OfKind(ports[1..], t)
  }

  /** The ports of every other type, in list order. */
  function NotOfKind(ports: seq<Port>, t: int): seq<Port> {
    if ports == [] then []
    else if ports[0].kind != t then [ports[0]] + NotOfKind(ports[1..], t)
    else NotOfKind(ports[1..], t)
  }

  /** The stable sort by ranking: for each type in turn, its ports in their old order. */
  function Grouped(types: seq<int>, ports: seq<Port>): seq<Port> {
    if types == [] then [] else OfKind(ports, types[0]) + Grouped(types[1..], ports)
  }

  lemma {:induction false} OfKindConcat(a: seq<Port>, b: seq<Port>, t: int)
    ensures OfKind(a + b, t) == OfKind(a, t) + OfKind(b, t)
    ensures NotOfKind(a + b, t) == NotOfKind(a, t) + NotOfKind(b, t)
  {
    if a == [] {
      assert a + b == b;
    } else {
      assert a + b == [a[0]] + (a[1..] + b);
      OfKindConcat(a[1..], b, t);
    }
  }

  lemma {:induction false} PartitionPermutes(ports: seq<Port>, t: int)
    ensures multiset(OfKind(ports, t) + NotOfKind(ports, t)) == multiset(ports)
  {
    if ports != [] {
      assert ports == [ports[0]] + ports[1..];
      PartitionPermutes(ports[1..], t);
    }
  }

  /** A port whose rank is no larger than any other's is the head of the grouping. */
  lemma {:induction false} GroupedCons(types: seq<int>, p: Port, ports: seq<Port>)
    requires Distinct(types)
    requires p.kind in types
    requires forall q :: q in ports ==> PortRank(types, p) <= PortRank(types, q)
    ensures Grouped(types, [p] + ports) == [p] + Grouped(types, ports)
  {
    var all := [p] + ports;
    assert all[1..] == ports;
    var first, others := types[0], types[1..];
    if first == p.kind {
      GroupedSkips(others, p, ports);
      var mine, rest := OfKind(ports, first), Grouped(others, ports);
      assert [p] + mine + rest == [p] + (mine + rest);
    } else {
      forall q | q in ports ensures q.kind != first && PortRank(others, p) <= PortRank(others, q) {
        assert PortRank(types, p) <= PortRank(types, q);
      }
      EmptyKind(ports, first);
      EmptyKind(all, first);
      GroupedCons(others, p, ports);
    }
  }

  lemma {:induction false} EmptyKind(ports: seq<Port>, t: int)
    requires forall q :: q in ports ==> q.kind != t
    ensures OfKind(ports, t) == [] && NotOfKind(ports, t) == ports
  {
    if ports != [] {
      EmptyKind(ports[1..], t);
    }
  }

  lemma {:induction false} GroupedSkips(types: seq<int>, p: Port, ports: seq<Port>)
    requires p.kind !in types
    ensures Grouped(types, [p] + ports) == Grouped(types, ports)
  {
    assert ([p] + ports)[1..] == ports;
    if types != [] {
      GroupedSkips(types[1..], p, ports);
    }
  }

  /** An ordered list is its own stable sort: order plus per-type order leaves no freedom. */
  lemma {:induction false} OrderedIsGrouped(types: seq<int>, ports: seq<Port>)
    requires Distinct(types)
    requires forall p :: p in ports ==> p.kind in types
    requires Ordered(types, ports)
    ensures Grouped(types, ports) == ports
  {
    if ports == [] {
      GroupedEmpty(types);
    } else {
      OrderedIsGrouped(types, ports[1..]);
      assert ports == [ports[0]] + ports[1..];
      GroupedCons(types, ports[0], ports[1..]);
    }
  }

  lemma {:induction false} GroupedEmpty(types: seq<int>)
    ensures Grouped(types, []) == []
  {
    if types != [] {
      GroupedEmpty(types[1..]);
    }
  }

  lemma {:induction false} GroupedByKinds(types: seq<int>, a: seq<Port>, b: seq<Port>)
    requires forall t :: OfKind(a, t) == OfKind(b, t)
    ensures Grouped(types, a) == Grouped(types, b)
  {
    if types != [] {
      GroupedByKinds(types[1..], a, b);
    }
  }
}
