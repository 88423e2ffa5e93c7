/** What every run of PriorityPolicy operations keeps, and what SetPorts and
    SetTheFirstPort guarantee across calls. */
module PolicyRuns {
  import opened Collections
  import opened PortRanking
  import opened SortPorts
  import opened PriorityPolicies

  /** The operations a caller may issue, in any order (all but SetTheFirstType on its own). */
  datatype Op =
    | Add(port: Port)
    | Reconcile(list: seq<Port>)
    | RemoveIndex(index: int)
    | RemoveName(key: Key)
    | DropCard(card: string)
    | Choose(key: Key)
    | Resort

  ghost function Apply(s: Policy, op: Op): Policy {
    match op
    case Add(p) => s.(ports := Added(s.types, s.ports, p))
    case Reconcile(list) => s.(ports := Reconciled(s.types, s.ports, list))
    case RemoveIndex(i) => if 0 <= i < |s.ports| then s.(ports := RemoveAt(s.ports, i)) else s
    case RemoveName(key) =>
      var i := FindIndex(s.ports, key);
      if i >= 0 then s.(ports := RemoveAt(s.ports, i)) else s
    case DropCard(card) => s.(ports := Select(s.ports, NotOnCard(card)))
    case Choose(key) =>
      var i := FindIndex(s.ports, key);
      if i >= 0 then Policy(TypeFirst(s.types, s.ports[i].kind), PortFirst(s.ports, i)) else s
    case Resort => s.(ports := SortOnce(s.types, s.ports))
  }

  ghost function Run(s: Policy, ops: seq<Op>): Policy
    decreases |ops|
  {
    if ops == [] then s else Run(Apply(s, ops[0]), ops[1..])
  }

  /** Types handed to the policy come from DetectPortType, which only returns port types. */
  ghost predicate TypesKnown(op: Op) {
    match op
    case Add(p) => InRange(p.kind)
    case Reconcile(list) => AllInRange(list)
    case _ => true
  }

  ghost predicate WellRanked(s: Policy) {
    Complete(s.types) && AllInRange(s.ports) && Ordered(s.types, s.ports)
  }

  /** Every run from a completed empty policy keeps the ranking a permutation of all types and
      the ports ordered by it. */
  lemma {:induction false} RunKeepsRanking(s: Policy, ops: seq<Op>)
    requires WellRanked(s)
    requires forall i :: 0 <= i < |ops| ==> TypesKnown(ops[i])
    ensures WellRanked(Run(s, ops))
    decreases |ops|
  {
    if ops != [] {
      StepKeepsRanking(s, ops[0]);
      RunKeepsRanking(Apply(s, ops[0]), ops[1..]);
    }
  }

  lemma StepKeepsRanking(s: Policy, op: Op)
    requires WellRanked(s) && TypesKnown(op)
    ensures WellRanked(Apply(s, op))
  {
    match op {
      case Add(p) => AddedOrdered(s.types, s.ports, p);
      case Reconcile(list) =>
        ReconciledOrdered(s.types, s.ports, list);
        ReconciledInRange(s.types, s.ports, list);
      case RemoveIndex(i) =>
        if 0 <= i < |s.ports| {
          RemoveOrdered(s.types, s.ports, i);
        }
      case RemoveName(key) =>
        var i := FindIndex(s.ports, key);
        if i >= 0 {
          RemoveOrdered(s.types, s.ports, i);
        }
      case DropCard(card) =>
        SelectOrdered(s.types, s.ports, NotOnCard(card));
        SelectInRange(s.ports, NotOnCard(card));
      case Choose(key) =>
        var i := FindIndex(s.ports, key);
        if i >= 0 {
          TypeFirstComplete(s.types, s.ports[i].kind);
          PortFirstPermutes(s.ports, i);
          PermutedInRange(s.ports, PortFirst(s.ports, i));
          PortFirstOrdered(s.types, s.ports, i);
        }
      case Resort => SortOnceProgress(s.types, s.ports);
    }
  }

  /** A type that is not ranked is preferred to nothing. */
  lemma PreferFirst(types: seq<int>, a: int, b: int)
    requires a != PORT_TYPE_INVALID
    ensures Prefer(types, a, b) == a <==> a in types && Rank(types, a) <= Rank(types, b)
  {
    PreferPicksSmallerRank(types, a, b);
  }

  lemma {:induction false} AddIndexSplits(types: seq<int>, ports: seq<Port>, p: Port)
    requires p.kind != PORT_TYPE_INVALID
    ensures var i := AddIndex(types, ports, p);
            && (forall k :: 0 <= k < i ==> PortRank(types, ports[k]) <= PortRank(types, p))
            && (i < |ports| ==> PortRank(types, p) <= PortRank(types, ports[i]))
  {
    if ports != [] {
      PreferFirst(types, p.kind, ports[0].kind);
      AddIndexSplits(types, ports[1..], p);
    }
  }

  /** Whatever the ranking, complete or not: AddPort into an ordered list leaves it ordered. */
  lemma AddedOrdered(types: seq<int>, ports: seq<Port>, p: Port)
    requires p.kind != PORT_TYPE_INVALID && Ordered(types, ports)
    ensures Ordered(types, Added(types, ports, p))
  {
    AddIndexSplits(types, ports, p);
    var i := AddIndex(types, ports, p);
    forall k | 0 <= k < |ports|
      ensures if k < i then PortRank(types, ports[k]) <= PortRank(types, p)
              else PortRank(types, p) <= PortRank(types, ports[k])
    {
      assert k > i ==> PortRank(types, ports[i]) <= PortRank(types, ports[k]);
    }
    InsertOrdered(types, ports, p, i);
  }

  lemma InsertOrdered(types: seq<int>, ports: seq<Port>, p: Port, i: nat)
    requires i <= |ports| && Ordered(types, ports)
    requires forall k :: 0 <= k < |ports| ==>
               if k < i then PortRank(types, ports[k]) <= PortRank(types, p)
               else PortRank(types, p) <= PortRank(types, ports[k])
    ensures Ordered(types, InsertAt(ports, p, i))
  {
    var r := InsertAt(ports, p, i);
    forall x, y | 0 <= x < y < |r| ensures PortRank(types, r[x]) <= PortRank(types, r[y]) {
      assert r[x] == if x < i then ports[x] else if x == i then p else ports[x - 1];
      assert r[y] == if y < i then ports[y] else if y == i then p else ports[y - 1];
    }
  }

  lemma OrderedConcat(types: seq<int>, a: seq<Port>, b: seq<Port>)
    requires Ordered(types, a) && Ordered(types, b)
    requires forall x, y :: x in a && y in b ==> PortRank(types, x) <= PortRank(types, y)
    ensures Ordered(types, a + b)
  {
    var r := a + b;
    forall i, j | 0 <= i < j < |r| ensures PortRank(types, r[i]) <= PortRank(types, r[j]) {
      if i < |a| <= j {
        assert r[i] in a && r[j] in b;
      }
    }
  }

  lemma {:induction false} SelectOrdered(types: seq<int>, ports: seq<Port>, keep: Port -> bool)
    requires Ordered(types, ports)
    ensures Ordered(types, Select(ports, keep))
  {
    if ports != [] {
      SelectOrdered(types, ports[1..], keep);
      var r := Select(ports[1..], keep);
      SelectMembers(ports[1..], keep);
      if keep(ports[0]) && r != [] {
        assert r[0] in ports[1..];
        OrderedCons(types, ports[0], r);
      }
    }
  }

  lemma {:induction false} AddMissingOrdered(types: seq<int>, ports: seq<Port>, list: seq<Port>)
    requires Ordered(types, ports) && NoneInvalid(list)
    ensures Ordered(types, AddMissing(types, ports, list))
    decreases |list|
  {
    if list != [] {
      if KeyOf(list[0]) in Keys(ports) {
        AddMissingOrdered(types, ports, list[1..]);
      } else {
        AddedOrdered(types, ports, list[0]);
        AddMissingOrdered(types, Added(types, ports, list[0]), list[1..]);
      }
    }
  }

  /** Whatever the ranking, complete or not: SetPorts leaves an ordered list ordered. */
  lemma ReconciledOrdered(types: seq<int>, ports: seq<Port>, list: seq<Port>)
    requires Ordered(types, ports) && NoneInvalid(list)
    ensures Ordered(types, Reconciled(types, ports, list))
  {
    SelectOrdered(types, ports, InKeys(Keys(list)));
    AddMissingOrdered(types, Select(ports, InKeys(Keys(list))), list);
  }

  lemma SelectInRange(ports: seq<Port>, keep: Port -> bool)
    requires AllInRange(ports)
    ensures AllInRange(Select(ports, keep))
  {
    SelectMembers(ports, keep);
    var r := Select(ports, keep);
    forall i | 0 <= i < |r| ensures InRange(r[i].kind) {
      assert r[i] in r;
    }
  }

  lemma {:induction false} AddMissingMembers(types: seq<int>, ports: seq<Port>, list: seq<Port>, p: Port)
    requires p in AddMissing(types, ports, list)
    ensures p in ports || p in list
    decreases |list|
  {
    if list != [] {
      var next := if KeyOf(list[0]) in Keys(ports) then ports else Added(types, ports, list[0]);
      AddMissingMembers(types, next, list[1..], p);
    }
  }

  /** SetPorts brings in no port from elsewhere. */
  lemma ReconciledMembers(types: seq<int>, ports: seq<Port>, list: seq<Port>, p: Port)
    requires p in Reconciled(types, ports, list)
    ensures p in ports || p in list
  {
    AddMissingMembers(types, Select(ports, InKeys(Keys(list))), list, p);
    SelectMembers(ports, InKeys(Keys(list)));
  }

  lemma ReconciledInRange(types: seq<int>, ports: seq<Port>, list: seq<Port>)
    requires AllInRange(ports) && AllInRange(list)
    ensures AllInRange(Reconciled(types, ports, list))
  {
    var r := Reconciled(types, ports, list);
    forall i | 0 <= i < |r| ensures InRange(r[i].kind) {
      ReconciledMembers(types, ports, list, r[i]);
    }
  }

  lemma {:induction false} WithoutMembers(types: seq<int>, t: int)
    ensures forall x :: x in Without(types, t) <==> x in types && x != t
    ensures Distinct(types) ==> Distinct(Without(types, t))
  {
    if types != [] {
      WithoutMembers(types[1..], t);
      assert types == [types[0]] + types[1..];
      if Distinct(types) {
        assert forall i :: 0 <= i < |types[1..]| ==> types[1..][i] == types[i + 1];
        assert types[0] !in types[1..];
      }
    }
  }

  lemma TypeFirstComplete(types: seq<int>, t: int)
    requires Complete(types)
    ensures Complete(TypeFirst(types, t))
  {
    if InRange(t) {
      WithoutMembers(types, t);
      var w := Without(types, t);
      forall i | 0 <= i < |w| ensures InRange(w[i]) {
        assert w[i] in types;
      }
    }
  }

  /** Dropping a type from the ranking keeps the relative rank of the others. */
  lemma {:induction false} RankWithout(types: seq<int>, t: int, a: int, b: int)
    requires a != t && b != t
    ensures Rank(types, a) <= Rank(types, b) ==> Rank(Without(types, t), a) <= Rank(Without(types, t), b)
  {
    if types != [] {
      RankWithout(types[1..], t, a, b);
      if types[0] != t {
        var w := [types[0]] + Without(types[1..], t);
        assert w[1..] == Without(types[1..], t);
      }
    }
  }

  lemma {:induction false} KindSelects(ports: seq<Port>, t: int)
    ensures NotOfKind(ports, t) == Select(ports, OtherKind(t))
  {
    if ports != [] {
      KindSelects(ports[1..], t);
    }
  }

  lemma PortFirstPermutes(ports: seq<Port>, i: nat)
    requires i < |ports|
    ensures multiset(PortFirst(ports, i)) == multiset(ports)
  {
    var p, rest := ports[i], RemoveAt(ports, i);
    PartitionPermutes(rest, p.kind);
    var a, b := OfKind(rest, p.kind), NotOfKind(rest, p.kind);
    assert [p] + a + b == [p] + (a + b);
    RemoveCounts(ports, i);
  }

  lemma RemoveCounts(ports: seq<Port>, i: nat)
    requires i < |ports|
    ensures multiset(ports) == multiset{ports[i]} + multiset(RemoveAt(ports, i))
  {
    assert ports == ports[..i] + ([ports[i]] + ports[i + 1..]);
  }

  lemma RemoveOrdered(types: seq<int>, ports: seq<Port>, i: nat)
    requires i < |ports| && Ordered(types, ports)
    ensures Ordered(types, RemoveAt(ports, i)) && (AllInRange(ports) ==> AllInRange(RemoveAt(ports, i)))
  {
    var r := RemoveAt(ports, i);
    assert forall k :: 0 <= k < |r| ==> r[k] == ports[if k < i then k else k + 1];
  }

  lemma PermutedInRange(a: seq<Port>, b: seq<Port>)
    requires multiset(a) == multiset(b) && AllInRange(a)
    ensures AllInRange(b)
  {
    forall k | 0 <= k < |b| ensures InRange(b[k].kind) {
      assert b[k] in multiset(b);
      assert b[k] in a;
    }
  }

  lemma OthersOrdered(types: seq<int>, ports: seq<Port>, kind: int)
    requires Ordered(types, ports) && InRange(kind)
    ensures Ordered(TypeFirst(types, kind), NotOfKind(ports, kind))
  {
    var types', others := TypeFirst(types, kind), NotOfKind(ports, kind);
    KindSelects(ports, kind);
    SelectOrdered(types, ports, OtherKind(kind));
    KindMembers(ports, kind);
    assert types'[1..] == Without(types, kind);
    forall i, j | 0 <= i < j < |others| ensures PortRank(types', others[i]) <= PortRank(types', others[j]) {
      assert others[i] in others && others[j] in others;
      RankWithout(types, kind, others[i].kind, others[j].kind);
    }
  }

  /** Whatever the ranking, complete or not. */
  lemma PortFirstOrdered(types: seq<int>, ports: seq<Port>, i: nat)
    requires Ordered(types, ports) && i < |ports| && InRange(ports[i].kind)
    ensures Ordered(TypeFirst(types, ports[i].kind), PortFirst(ports, i))
  {
    var kind, rest := ports[i].kind, RemoveAt(ports, i);
    RemoveOrdered(types, ports, i);
    KindMembers(rest, kind);
    OthersOrdered(types, rest, kind);
    KindLeads(types, [ports[i]] + OfKind(rest, kind), NotOfKind(rest, kind), kind);
  }

  lemma KindLeads(types: seq<int>, mine: seq<Port>, others: seq<Port>, kind: int)
    requires InRange(kind) && Ordered(TypeFirst(types, kind), others)
    requires forall p :: p in mine ==> p.kind == kind
    ensures Ordered(TypeFirst(types, kind), mine + others)
  {
    var types' := TypeFirst(types, kind);
    forall p | p in mine ensures PortRank(types', p) == 0 {
    }
    OrderedConcat(types', mine, others);
  }

  /** SetTheFirstType alone keeps an ordered list ordered exactly when the ports of that type already lead it. */
  lemma TypeFirstKeepsOrderExactly(s: Policy, t: int)
    requires Ordered(s.types, s.ports) && InRange(t)
    ensures Ordered(TypeFirst(s.types, t), s.ports) <==> TypeLeads(s.ports, t)
  {
    if TypeLeads(s.ports, t) {
      LeadingKeepsOrder(s, t);
    }
    if Ordered(TypeFirst(s.types, t), s.ports) {
      OrderMeansLeading(s, t);
    }
  }

  /** No port of another type comes before one of this type. */
  ghost predicate TypeLeads(ports: seq<Port>, t: int) {
    forall i, j :: 0 <= i < j < |ports| && ports[j].kind == t ==> ports[i].kind == t
  }

  lemma LeadingKeepsOrder(s: Policy, t: int)
    requires Ordered(s.types, s.ports) && InRange(t) && TypeLeads(s.ports, t)
    ensures Ordered(TypeFirst(s.types, t), s.ports)
  {
    var types', ports := TypeFirst(s.types, t), s.ports;
    assert types'[1..] == Without(s.types, t);
    forall i, j | 0 <= i < j < |ports| ensures PortRank(types', ports[i]) <= PortRank(types', ports[j]) {
      if ports[i].kind != t {
        RankWithout(s.types, t, ports[i].kind, ports[j].kind);
      }
    }
  }

  lemma OrderMeansLeading(s: Policy, t: int)
    requires InRange(t) && Ordered(TypeFirst(s.types, t), s.ports)
    ensures TypeLeads(s.ports, t)
  {
    forall i, j | 0 <= i < j < |s.ports| && s.ports[j].kind == t ensures s.ports[i].kind == t {
      assert PortRank(TypeFirst(s.types, t), s.ports[i]) <= PortRank(TypeFirst(s.types, t), s.ports[j]);
    }
  }

  // ---- SetPorts ----

  lemma {:induction false} AddMissingKeys(types: seq<int>, ports: seq<Port>, list: seq<Port>)
    ensures Keys(AddMissing(types, ports, list)) == Keys(ports) + Keys(list)
    ensures DistinctKeys(ports) ==> DistinctKeys(AddMissing(types, ports, list))
    decreases |list|
  {
    if list != [] {
      assert list == [list[0]] + list[1..];
      KeysCons(list[0], list[1..]);
      if KeyOf(list[0]) in Keys(ports) {
        AddMissingKeys(types, ports, list[1..]);
      } else {
        InsertedKeys(ports, list[0], AddIndex(types, ports, list[0]));
        if DistinctKeys(ports) {
          InsertedDistinct(ports, list[0], AddIndex(types, ports, list[0]));
        }
        AddMissingKeys(types, Added(types, ports, list[0]), list[1..]);
      }
    }
  }

  lemma KeysCons(p: Port, ports: seq<Port>)
    ensures Keys([p] + ports) == {KeyOf(p)} + Keys(ports)
  {
    assert p in [p] + ports;
    forall k | k in Keys(ports) ensures k in Keys([p] + ports) {
      var q :| q in ports && KeyOf(q) == k;
      assert q in [p] + ports;
    }
  }

  lemma InsertedKeys(ports: seq<Port>, p: Port, i: nat)
    requires i <= |ports|
    ensures Keys(InsertAt(ports, p, i)) == Keys(ports) + {KeyOf(p)}
  {
    var r := InsertAt(ports, p, i);
    assert ports == ports[..i] + ports[i..];
    assert forall q :: q in r <==> q in ports || q == p;
  }

  lemma InsertedDistinct(ports: seq<Port>, p: Port, i: nat)
    requires i <= |ports| && DistinctKeys(ports) && KeyOf(p) !in Keys(ports)
    ensures DistinctKeys(InsertAt(ports, p, i))
  {
    var r := InsertAt(ports, p, i);
    forall x, y | 0 <= x < y < |r| ensures KeyOf(r[x]) != KeyOf(r[y]) {
      assert x < i ==> r[x] == ports[x] && ports[x] in ports;
      assert y > i ==> r[y] == ports[y - 1] && ports[y - 1] in ports;
      assert x > i ==> r[x] == ports[x - 1];
    }
  }

  lemma {:induction false} SelectKeys(ports: seq<Port>, ks: set<Key>)
    ensures Keys(Select(ports, InKeys(ks))) == Keys(ports) * ks
    ensures DistinctKeys(ports) ==> DistinctKeys(Select(ports, InKeys(ks)))
  {
    var keep := InKeys(ks);
    SelectMembers(ports, keep);
    forall k | k in Keys(ports) * ks ensures k in Keys(Select(ports, keep)) {
      var q :| q in ports && KeyOf(q) == k;
      assert q in Select(ports, keep);
    }
    if ports != [] && DistinctKeys(ports) {
      SelectKeys(ports[1..], ks);
      SelectMembers(ports[1..], keep);
      var r := Select(ports[1..], keep);
      if keep(ports[0]) {
        forall j | 0 <= j < |r| ensures KeyOf(r[j]) != KeyOf(ports[0]) {
          assert r[j] in ports[1..];
        }
      }
    }
  }

  /** SetPorts leaves exactly the listed keys, and no duplicate key if there was none. */
  lemma SetPortsKeys(types: seq<int>, ports: seq<Port>, list: seq<Port>)
    ensures Keys(Reconciled(types, ports, list)) == Keys(list)
    ensures DistinctKeys(ports) ==> DistinctKeys(Reconciled(types, ports, list))
  {
    SelectKeys(ports, Keys(list));
    AddMissingKeys(types, Select(ports, InKeys(Keys(list))), list);
  }

  lemma SelectAround(a: seq<Port>, p: Port, b: seq<Port>, keep: Port -> bool)
    requires !keep(p)
    ensures Select(a + [p] + b, keep) == Select(a + b, keep)
  {
    SelectConcat(a + [p], b, keep);
    SelectConcat(a, [p], keep);
    SelectConcat(a, b, keep);
    SelectNone([p], keep);
  }

  lemma InsertedInvisible(ports: seq<Port>, p: Port, i: nat, keep: Port -> bool)
    requires i <= |ports| && !keep(p)
    ensures Select(InsertAt(ports, p, i), keep) == Select(ports, keep)
  {
    SelectAround(ports[..i], p, ports[i..], keep);
    assert ports == ports[..i] + ports[i..];
  }

  lemma {:induction false} AddMissingSurvivors(types: seq<int>, ports: seq<Port>, list: seq<Port>, ks: set<Key>)
    requires forall p :: p in list && KeyOf(p) in ks ==> KeyOf(p) in Keys(ports)
    ensures Select(AddMissing(types, ports, list), InKeys(ks)) == Select(ports, InKeys(ks))
    decreases |list|
  {
    if list != [] {
      assert list == [list[0]] + list[1..];
      if KeyOf(list[0]) in Keys(ports) {
        AddMissingSurvivors(types, ports, list[1..], ks);
      } else {
        var i := AddIndex(types, ports, list[0]);
        assert list[0] in list;
        InsertedInvisible(ports, list[0], i, InKeys(ks));
        InsertedKeys(ports, list[0], i);
        AddMissingSurvivors(types, Added(types, ports, list[0]), list[1..], ks);
      }
    }
  }

  /** Surviving ports keep their old relative order: what the result shares with the old list
      is what the old list shares with the argument, in the old order. */
  lemma SetPortsSurvivors(types: seq<int>, ports: seq<Port>, list: seq<Port>)
    ensures Select(Reconciled(types, ports, list), InKeys(Keys(ports))) == Select(ports, InKeys(Keys(list)))
  {
    var kept := Select(ports, InKeys(Keys(list)));
    SelectKeys(ports, Keys(list));
    forall p | p in list && KeyOf(p) in Keys(ports) ensures KeyOf(p) in Keys(kept) {
      assert KeyOf(p) in Keys(list);
    }
    AddMissingSurvivors(types, kept, list, Keys(ports));
    SelectMembers(ports, InKeys(Keys(list)));
    forall k | 0 <= k < |kept| ensures InKeys(Keys(ports))(kept[k]) {
      assert kept[k] in kept;
    }
    SelectAll(kept, InKeys(Keys(ports)));
  }

  lemma {:induction false} AddMissingNothing(types: seq<int>, ports: seq<Port>, list: seq<Port>)
    requires Keys(list) <= Keys(ports)
    ensures AddMissing(types, ports, list) == ports
    decreases |list|
  {
    if list != [] {
      assert list == [list[0]] + list[1..];
      KeysCons(list[0], list[1..]);
      AddMissingNothing(types, ports, list[1..]);
    }
  }

  /** A second SetPorts with the same argument changes nothing. */
  lemma SetPortsIdempotent(types: seq<int>, ports: seq<Port>, list: seq<Port>)
    ensures var r := Reconciled(types, ports, list); Reconciled(types, r, list) == r
  {
    var r := Reconciled(types, ports, list);
    SetPortsKeys(types, ports, list);
    forall k | 0 <= k < |r| ensures InKeys(Keys(list))(r[k]) {
      assert r[k] in r;
      assert KeyOf(r[k]) in Keys(r);
    }
    SelectAll(r, InKeys(Keys(list)));
    AddMissingNothing(types, r, list);
  }

  // ---- the chosen port stays first ----

  ghost predicate Leads(s: Policy, key: Key) {
    && s.ports != [] && KeyOf(s.ports[0]) == key
    && s.types != [] && s.types[0] == s.ports[0].kind
  }

  /** The list still has the chosen port and brings no new port of its type. */
  ghost predicate Calm(ports: seq<Port>, list: seq<Port>, key: Key, kind: int) {
    && key in Keys(list)
    && forall p :: p in list && p.kind == kind ==> KeyOf(p) in Keys(ports)
  }

  ghost function SetAll(s: Policy, lists: seq<seq<Port>>): Policy
    decreases |lists|
  {
    if lists == [] then s else SetAll(Apply(s, Reconcile(lists[0])), lists[1..])
  }

  ghost predicate AllCalm(s: Policy, lists: seq<seq<Port>>, key: Key, kind: int)
    decreases |lists|
  {
    lists == [] || (Calm(s.ports, lists[0], key, kind) && AllCalm(Apply(s, Reconcile(lists[0])), lists[1..], key, kind))
  }

  /** After SetTheFirstPort succeeds, no sequence of calm SetPorts calls displaces the choice, whatever the
      ranking and the order of the ports were. */
  lemma ChoiceIsSticky(s: Policy, key: Key, lists: seq<seq<Port>>)
    requires var i := FindIndex(s.ports, key);
             i >= 0 && InRange(s.ports[i].kind) && AllCalm(Apply(s, Choose(key)), lists, key, s.ports[i].kind)
    ensures KeyOf(FirstPortOf(SetAll(Apply(s, Choose(key)), lists).ports)) == key
  {
    LeadsThroughout(Apply(s, Choose(key)), key, lists);
  }

  lemma {:induction false} LeadsThroughout(s: Policy, key: Key, lists: seq<seq<Port>>)
    requires Leads(s, key) && AllCalm(s, lists, key, s.types[0])
    ensures Leads(SetAll(s, lists), key)
    decreases |lists|
  {
    if lists != [] {
      LeadsAfterSetPorts(s, key, lists[0]);
      LeadsThroughout(Apply(s, Reconcile(lists[0])), key, lists[1..]);
    }
  }

  lemma LeadsAfterSetPorts(s: Policy, key: Key, list: seq<Port>)
    requires Leads(s, key) && Calm(s.ports, list, key, s.types[0])
    ensures Leads(Apply(s, Reconcile(list)), key)
  {
    var kept := Select(s.ports, InKeys(Keys(list)));
    assert kept[0] == s.ports[0];
    SelectKeys(s.ports, Keys(list));
    forall p | p in list && p.kind == s.types[0] ensures KeyOf(p) in Keys(kept) {
      assert KeyOf(p) in Keys(list);
    }
    LeadsAfterAdds(s.types, kept, list);
  }

  lemma {:induction false} LeadsAfterAdds(types: seq<int>, ports: seq<Port>, list: seq<Port>)
    requires ports != [] && types != [] && types[0] == ports[0].kind
    requires forall p :: p in list && p.kind == types[0] ==> KeyOf(p) in Keys(ports)
    ensures var r := AddMissing(types, ports, list); r != [] && r[0] == ports[0]
    decreases |list|
  {
    if list != [] {
      assert list == [list[0]] + list[1..];
      if KeyOf(list[0]) in Keys(ports) {
        LeadsAfterAdds(types, ports, list[1..]);
      } else {
        assert list[0] in list;
        assert AddIndex(types, ports, list[0]) > 0;
        InsertedKeys(ports, list[0], AddIndex(types, ports, list[0]));
        LeadsAfterAdds(types, Added(types, ports, list[0]), list[1..]);
      }
    }
  }

  // ---- and exactly when ----

  /** A port of the first-ranked type goes to the front; no other port does. */
  lemma AddedInFront(types: seq<int>, ports: seq<Port>, p: Port)
    requires ports != [] && types != [] && types[0] == ports[0].kind
    ensures var r := Added(types, ports, p); r != [] && r[0] == if p.kind == types[0] then p else ports[0]
  {
    assert AddIndex(types, ports, p) == 0 <==> p.kind == types[0];
  }

  /** Once a new port of the first-ranked type is listed, the chosen one loses its place for good. */
  lemma {:induction false} DisplacedByAdds(types: seq<int>, ports: seq<Port>, list: seq<Port>, key: Key, q: Port)
    requires ports != [] && types != [] && types[0] == ports[0].kind && key in Keys(ports) && DistinctKeys(list)
    requires KeyOf(ports[0]) != key || (q in list && q.kind == types[0] && KeyOf(q) !in Keys(ports))
    ensures var r := AddMissing(types, ports, list); r != [] && KeyOf(r[0]) != key
    decreases |list|
  {
    if list != [] {
      var p, rest := list[0], list[1..];
      assert list == [p] + rest;
      if KeyOf(p) in Keys(ports) {
        DisplacedByAdds(types, ports, rest, key, q);
      } else {
        AddedInFront(types, ports, p);
        InsertedKeys(ports, p, AddIndex(types, ports, p));
        if q in rest {
          var k :| 0 <= k < |rest| && rest[k] == q;
          assert KeyOf(list[0]) != KeyOf(list[k + 1]);
        }
        DisplacedByAdds(types, Added(types, ports, p), rest, key, q);
      }
    }
  }

  /** One SetPorts call displaces the choice if and only if its list drops the port or brings a new key of
      its type. */
  lemma DisplacesExactly(s: Policy, key: Key, list: seq<Port>)
    requires Leads(s, key) && DistinctKeys(list)
    ensures var r := Reconciled(s.types, s.ports, list);
            r != [] && KeyOf(r[0]) == key <==> Calm(s.ports, list, key, s.types[0])
  {
    var r := Reconciled(s.types, s.ports, list);
    if Calm(s.ports, list, key, s.types[0]) {
      LeadsAfterSetPorts(s, key, list);
    } else if key in Keys(list) {
      var kept := Select(s.ports, InKeys(Keys(list)));
      assert kept[0] == s.ports[0];
      KeyListed(kept, 0);
      SelectKeys(s.ports, Keys(list));
      var q :| q in list && q.kind == s.types[0] && KeyOf(q) !in Keys(s.ports);
      DisplacedByAdds(s.types, kept, list, key, q);
    } else {
      SetPortsKeys(s.types, s.ports, list);
      if r != [] {
        KeyListed(r, 0);
      }
    }
  }

  /** The port is first after every one of the calls. */
  ghost predicate StaysFirst(s: Policy, lists: seq<seq<Port>>, key: Key)
    decreases |lists|
  {
    lists == []
    || (var t := Apply(s, Reconcile(lists[0]));
        t.ports != [] && KeyOf(t.ports[0]) == key && StaysFirst(t, lists[1..], key))
  }

  /** So the choice outlives a sequence of calls if and only if all of them are calm. */
  lemma {:induction false} StickyExactly(s: Policy, key: Key, lists: seq<seq<Port>>)
    requires Leads(s, key) && forall i :: 0 <= i < |lists| ==> DistinctKeys(lists[i])
    ensures StaysFirst(s, lists, key) <==> AllCalm(s, lists, key, s.types[0])
    decreases |lists|
  {
    if lists != [] {
      DisplacesExactly(s, key, lists[0]);
      if Calm(s.ports, lists[0], key, s.types[0]) {
        LeadsAfterSetPorts(s, key, lists[0]);
        StickyExactly(Apply(s, Reconcile(lists[0])), key, lists[1..]);
      }
    }
  }

  // ---- single operations, spelled out ----

  /** AddPort puts a port of a ranked type before all ports of the same or a worse rank and behind all better
      ones, as far as the list is ordered; a port of an unranked type goes to the end. */
  lemma {:induction false} AddIndexExactly(types: seq<int>, ports: seq<Port>, p: Port)
    requires p.kind != PORT_TYPE_INVALID
    ensures var i := AddIndex(types, ports, p);
            && (forall k :: 0 <= k < i ==> p.kind !in types || PortRank(types, ports[k]) < PortRank(types, p))
            && (i < |ports| ==> p.kind in types && PortRank(types, p) <= PortRank(types, ports[i]))
    ensures Added(types, ports, p) == ports[..AddIndex(types, ports, p)] + [p] + ports[AddIndex(types, ports, p)..]
  {
    if ports != [] {
      PreferFirst(types, p.kind, ports[0].kind);
      AddIndexExactly(types, ports[1..], p);
    }
  }

  /** SetPorts works through its list in order: a longer list adds its last port to what the rest left. */
  lemma {:induction false} AddMissingLast(types: seq<int>, ports: seq<Port>, list: seq<Port>, p: Port)
    ensures var before := AddMissing(types, ports, list);
            AddMissing(types, ports, list + [p])
            == if exists q :: q in before && q.card == p.card && q.name == p.name then before
               else Added(types, before, p)
    decreases |list|
  {
    if list == [] {
      assert [p][1..] == [] && [] + [p] == [p];
      assert KeyOf(p) in Keys(ports) <==> exists q :: q in ports && q.card == p.card && q.name == p.name;
    } else {
      assert (list + [p])[0] == list[0] && (list + [p])[1..] == list[1..] + [p];
      var next := if KeyOf(list[0]) in Keys(ports) then ports else Added(types, ports, list[0]);
      AddMissingLast(types, next, list[1..], p);
    }
  }

  /** SetTheFirstPort never reorders ports of equal type, except that the chosen one comes first. */
  lemma PortFirstStable(ports: seq<Port>, i: nat, t: int)
    requires i < |ports|
    ensures var r, rest := PortFirst(ports, i), ports[..i] + ports[i + 1..];
            && r != [] && r[0] == ports[i]
            && OfKind(r, t) == (if t == ports[i].kind then [ports[i]] else []) + OfKind(rest, t)
  {
    var p, rest := ports[i], RemoveAt(ports, i);
    var mine, others := OfKind(rest, p.kind), NotOfKind(rest, p.kind);
    OfKindConcat([p] + mine, others, t);
    OfKindConcat([p], mine, t);
    assert [p][1..] == [];
    KindOfKind(rest, p.kind, t);
    var mt, ot := OfKind(mine, t), OfKind(others, t);
    assert mt + [] == mt && [] + ot == ot;
  }

  lemma {:induction false} KindOfKind(ports: seq<Port>, kind: int, t: int)
    ensures OfKind(OfKind(ports, kind), t) == if t == kind then OfKind(ports, t) else []
    ensures OfKind(NotOfKind(ports, kind), t) == if t == kind then [] else OfKind(ports, t)
  {
    if ports != [] {
      KindOfKind(ports[1..], kind, t);
    }
  }

  /** SetTheFirstType: a valid type moves to the front and the others keep their order; an invalid one
      changes nothing. */
  lemma TypeFirstExactly(types: seq<int>, t: int)
    ensures !InRange(t) ==> TypeFirst(types, t) == types
    ensures InRange(t) ==>
              var r := TypeFirst(types, t);
              && r != [] && r[0] == t
              && (forall x :: x in r[1..] <==> x in types && x != t)
              && forall a, b :: a != t && b != t ==>
                   (Rank(types, a) <= Rank(types, b) ==> Rank(r[1..], a) <= Rank(r[1..], b))
  {
    if InRange(t) {
      var w := Without(types, t);
      assert ([t] + w)[1..] == w;
      WithoutMembers(types, t);
      forall a, b | a != t && b != t && Rank(types, a) <= Rank(types, b) ensures Rank(w, a) <= Rank(w, b) {
        RankWithout(types, t, a, b);
      }
    }
  }

  /** RemoveCard keeps exactly the other cards' ports, and their order. */
  lemma {:induction false} RemoveCardExactly(ports: seq<Port>, card: string)
    ensures var r := Select(ports, NotOnCard(card));
            && (forall p :: p in r <==> p in ports && p.card != card)
            && forall t :: OfKind(r, t) == Select(OfKind(ports, t), NotOnCard(card))
  {
    SelectMembers(ports, NotOnCard(card));
    forall t ensures OfKind(Select(ports, NotOnCard(card)), t) == Select(OfKind(ports, t), NotOnCard(card)) {
      SelectOfKind(ports, NotOnCard(card), t);
    }
  }

  lemma {:induction false} SelectOfKind(ports: seq<Port>, keep: Port -> bool, t: int)
    ensures OfKind(Select(ports, keep), t) == Select(OfKind(ports, t), keep)
  {
    if ports != [] {
      SelectOfKind(ports[1..], keep, t);
    }
  }

  /** completeTypes appends the missing types in increasing order. */
  lemma {:induction false} CompletedIncreases(types: seq<int>, n: nat)
    ensures var c := Completed(types, n);
            && types <= c
            && (forall k :: |types| <= k < |c| ==> 0 <= c[k] < n)
            && forall k, l :: |types| <= k < l < |c| ==> c[k] < c[l]
  {
    if n > 0 {
      CompletedIncreases(types, n - 1);
    }
  }
}
