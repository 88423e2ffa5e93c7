/** Which ports the priority policies are fed with: audio/config_keeper.go and audio/priority_manager.go. */
module PortConfigs {

  /** The part of PortConfig that decides whether a port may be used. */
  datatype PortConfig = PortConfig(name: string, enabled: bool)

  type CardConfigs = map<string, map<string, PortConfig>>

  /** A port is enabled unless its stored configuration says otherwise. */
  ghost predicate IsEnabled(cards: CardConfigs, card: string, port: string) {
    card in cards && port in cards[card] ==> cards[card][port].enabled
  }

  class ConfigKeeper {
    var cards: CardConfigs

    constructor ()
      ensures cards == map[]
    {
      cards := map[];
    }

    /** GetCardAndPortConfig: get or create, never changing what is enabled. */
    method GetCardAndPortConfig(card: string, port: string) returns (config: PortConfig)
      modifies this
      ensures card in cards && port in cards[card] && cards[card][port] == config
      ensures config.enabled <==> IsEnabled(old(cards), card, port)
      ensures !(card in old(cards) && port in old(cards)[card]) ==> config == PortConfig(port, true)
      ensures forall c, p :: IsEnabled(cards, c, p) <==> IsEnabled(old(cards), c, p)
      ensures forall c, p :: c in old(cards) && p in old(cards)[c] ==>
                c in cards && p in cards[c] && cards[c][p] == old(cards)[c][p]
    {
      if card !in cards {
        config := PortConfig(port, true);
        cards := cards[card := map[port := config]];
      } else if port !in cards[card] {
        config := PortConfig(port, true);
        cards := cards[card := cards[card][port := config]];
      } else {
        config := cards[card][port];
      }
    }

    /** SetEnabled changes exactly the one port. */
    method SetEnabled(card: string, port: string, enabled: bool)
      modifies this
      ensures forall c, p :: IsEnabled(cards, c, p) <==>
                if c == card && p == port then enabled else IsEnabled(old(cards), c, p)
    {
      var config := GetCardAndPortConfig(card, port);
      cards := cards[card := cards[card][port := config.(enabled := enabled)]];
    }
  }
}

module PriorityManagers {
  import opened Collections
  import opened PortRanking
  import opened SortPorts
  import opened PriorityPolicies
  import opened PolicyRuns
  import opened PortConfigs

  datatype Direction = Sink | Source | Unexpected

  /** A port of a sound card; `kind` is what DetectPortType returns for it. */
  datatype CardPort = CardPort(name: string, available: bool, direction: Direction, kind: int)

  datatype Card = Card(name: string, ports: seq<CardPort>)

  // ---- the ports that a loop over all cards picks ----

  type Test = (string, CardPort) -> bool

  function PortOf(name: string, port: CardPort): Port {
    Port(name, port.name, port.kind)
  }

  /** The ports of one card that pass the test, in order. */
  function ChosenOn(name: string, ports: seq<CardPort>, test: Test): seq<Port> {
    if ports == [] then []
    else (if test(name, ports[0]) then [PortOf(name, ports[0])] else []) + ChosenOn(name, ports[1..], test)
  }

  function Chosen(cards: seq<Card>, test: Test): seq<Port> {
    if cards == [] then [] else ChosenOn(cards[0].name, cards[0].ports, test) + Chosen(cards[1..], test)
  }

  lemma {:induction false} ChosenOnConcat(name: string, a: seq<CardPort>, b: seq<CardPort>, test: Test)
    ensures ChosenOn(name, a + b, test) == ChosenOn(name, a, test) + ChosenOn(name, b, test)
  {
    if a == [] {
      assert a + b == b;
    } else {
      assert (a + b)[1..] == a[1..] + b;
      ChosenOnConcat(name, a[1..], b, test);
    }
  }

  lemma ChosenOnStep(name: string, ports: seq<CardPort>, j: nat, test: Test)
    requires j < |ports|
    ensures ChosenOn(name, ports[..j + 1], test)
            == ChosenOn(name, ports[..j], test) + if test(name, ports[j]) then [PortOf(name, ports[j])] else []
  {
    assert ports[..j + 1] == ports[..j] + [ports[j]];
    ChosenOnConcat(name, ports[..j], [ports[j]], test);
    assert [ports[j]][1..] == [];
  }

  lemma {:induction false} ChosenConcat(a: seq<Card>, b: seq<Card>, test: Test)
    ensures Chosen(a + b, test) == Chosen(a, test) + Chosen(b, test)
  {
    if a == [] {
      assert a + b == b;
    } else {
      assert (a + b)[1..] == a[1..] + b;
      ChosenConcat(a[1..], b, test);
    }
  }

  lemma ChosenStep(cards: seq<Card>, i: nat, test: Test)
    requires i < |cards|
    ensures Chosen(cards[..i + 1], test)
            == Chosen(cards[..i], test) + ChosenOn(cards[i].name, cards[i].ports, test)
  {
    assert cards[..i + 1] == cards[..i] + [cards[i]];
    ChosenConcat(cards[..i], [cards[i]], test);
    assert [cards[i]][1..] == [];
  }

  lemma {:induction false} ChosenOnMembers(name: string, ports: seq<CardPort>, test: Test, q: Port)
    ensures q in ChosenOn(name, ports, test) <==>
            exists j :: 0 <= j < |ports| && test(name, ports[j]) && q == PortOf(name, ports[j])
  {
    if ports != [] {
      ChosenOnMembers(name, ports[1..], test, q);
      if j :| 0 <= j < |ports| && test(name, ports[j]) && q == PortOf(name, ports[j]) {
        if j > 0 {
          assert ports[1..][j - 1] == ports[j];
        }
      }
      if j :| 0 <= j < |ports[1..]| && test(name, ports[1..][j]) && q == PortOf(name, ports[1..][j]) {
        assert ports[j + 1] == ports[1..][j];
      }
    }
  }

  ghost predicate Picked(card: Card, test: Test, q: Port) {
    exists j :: 0 <= j < |card.ports| && test(card.name, card.ports[j]) && q == PortOf(card.name, card.ports[j])
  }

  lemma {:induction false} ChosenMembers(cards: seq<Card>, test: Test, q: Port)
    ensures q in Chosen(cards, test) <==> exists i :: 0 <= i < |cards| && Picked(cards[i], test, q)
  {
    if cards != [] {
      ChosenOnMembers(cards[0].name, cards[0].ports, test, q);
      ChosenMembers(cards[1..], test, q);
      if i :| 0 <= i < |cards| && Picked(cards[i], test, q) {
        if i > 0 {
          assert cards[1..][i - 1] == cards[i];
        }
      }
      if i :| 0 <= i < |cards[1..]| && Picked(cards[1..][i], test, q) {
        assert cards[i + 1] == cards[1..][i];
      }
    }
  }

  // ---- the two tests ----

  ghost predicate Usable(configs: CardConfigs, name: string, port: CardPort, sink: bool) {
    port.available && IsEnabled(configs, name, port.name) && (port.direction == Sink <==> sink)
  }

  /** SetPorts takes what is plugged in and enabled; whatever is not a sink counts as input. */
  ghost function UsableTest(configs: CardConfigs, sink: bool): Test {
    (name, port) => Usable(configs, name, port, sink)
  }

  /** defaultInit takes what is plugged in, enabled or not, and nothing of unexpected direction. */
  function AvailableTest(direction: Direction): Test {
    (name, port: CardPort) => port.available && port.direction == direction
  }

  ghost function UsablePorts(configs: CardConfigs, cards: seq<Card>, sink: bool): seq<Port> {
    Chosen(cards, UsableTest(configs, sink))
  }

  function AvailablePorts(cards: seq<Card>, direction: Direction): seq<Port> {
    Chosen(cards, AvailableTest(direction))
  }

  /** Adding the ports of a list one after the other. */
  function AddAll(types: seq<int>, ports: seq<Port>, list: seq<Port>): seq<Port> {
    if list == [] then ports
    else Added(types, AddAll(types, ports, list[..|list| - 1]), list[|list| - 1])
  }

  lemma AddAllAppend(types: seq<int>, ports: seq<Port>, list: seq<Port>, p: Port)
    ensures AddAll(types, ports, list + [p]) == Added(types, AddAll(types, ports, list), p)
  {
    assert (list + [p])[..|list|] == list;
  }

  lemma AddAllStep(types: seq<int>, start: seq<Port>, name: string, ports: seq<CardPort>, j: nat, test: Test)
    requires j < |ports|
    ensures var before := AddAll(types, start, ChosenOn(name, ports[..j], test));
            AddAll(types, start, ChosenOn(name, ports[..j + 1], test))
            == if test(name, ports[j]) then Added(types, before, PortOf(name, ports[j])) else before
  {
    var list := ChosenOn(name, ports[..j], test);
    ChosenOnStep(name, ports, j, test);
    if test(name, ports[j]) {
      AddAllAppend(types, start, list, PortOf(name, ports[j]));
    } else {
      assert list + [] == list;
    }
  }

  lemma {:induction false} AddAllConcat(types: seq<int>, ports: seq<Port>, a: seq<Port>, b: seq<Port>)
    ensures AddAll(types, ports, a + b) == AddAll(types, AddAll(types, ports, a), b)
  {
    if b == [] {
      assert a + b == a;
    } else {
      var n := |b| - 1;
      assert a + b == (a + b[..n]) + [b[n]];
      AddAllAppend(types, ports, a + b[..n], b[n]);
      AddAllConcat(types, ports, a, b[..n]);
    }
  }

  class PriorityManager {
    const output: PriorityPolicy
    const input: PriorityPolicy

    constructor ()
      ensures output != input && fresh(output) && fresh(input)
      ensures output.View() == input.View() == Policy([], [])
    {
      output := new PriorityPolicy();
      input := new PriorityPolicy();
    }

    /** SetPorts: reconcile both policies with the ports that are plugged in and enabled. */
    method SetPorts(keeper: ConfigKeeper, cards: seq<Card>)
      requires output != input
      modifies output`ports, input`ports, keeper
      ensures output.ports == Reconciled(output.types, old(output.ports), UsablePorts(old(keeper.cards), cards, true))
      ensures input.ports == Reconciled(input.types, old(input.ports), UsablePorts(old(keeper.cards), cards, false))
      ensures forall c, p :: IsEnabled(keeper.cards, c, p) <==> IsEnabled(old(keeper.cards), c, p)
    {
      ghost var was := keeper.cards;
      ghost var sinks, sources := UsableTest(was, true), UsableTest(was, false);
      var outputPorts, inputPorts := [], [];
      var i := 0;
      while i < |cards|
        modifies keeper
        invariant 0 <= i <= |cards|
        invariant forall c, p :: IsEnabled(keeper.cards, c, p) <==> IsEnabled(was, c, p)
        invariant outputPorts == Chosen(cards[..i], sinks) && inputPorts == Chosen(cards[..i], sources)
      {
        ChosenStep(cards, i, sinks);
        ChosenStep(cards, i, sources);
        var out, inp := Collect(keeper, cards[i], was);
        outputPorts, inputPorts := outputPorts + out, inputPorts + inp;
        i := i + 1;
      }
      assert cards[..i] == cards;
      output.SetPorts(outputPorts);
      input.SetPorts(inputPorts);
    }

    /** The inner loop of SetPorts over the ports of one card. */
    static method Collect(keeper: ConfigKeeper, card: Card, ghost was: CardConfigs)
      returns (out: seq<Port>, inp: seq<Port>)
      requires forall c, p :: IsEnabled(keeper.cards, c, p) <==> IsEnabled(was, c, p)
      modifies keeper
      ensures out == ChosenOn(card.name, card.ports, UsableTest(was, true))
      ensures inp == ChosenOn(card.name, card.ports, UsableTest(was, false))
      ensures forall c, p :: IsEnabled(keeper.cards, c, p) <==> IsEnabled(was, c, p)
    {
      ghost var sinks, sources := UsableTest(was, true), UsableTest(was, false);
      out, inp := [], [];
      var j := 0;
      while j < |card.ports|
        modifies keeper
        invariant 0 <= j <= |card.ports|
        invariant forall c, p :: IsEnabled(keeper.cards, c, p) <==> IsEnabled(was, c, p)
        invariant out == ChosenOn(card.name, card.ports[..j], sinks)
        invariant inp == ChosenOn(card.name, card.ports[..j], sources)
      {
        var port := card.ports[j];
        ChosenOnStep(card.name, card.ports, j, sinks);
        ChosenOnStep(card.name, card.ports, j, sources);
        if port.available {
          var config := keeper.GetCardAndPortConfig(card.name, port.name);
          if config.enabled {
            var p := Port(card.name, port.name, port.kind);
            if port.direction == Sink {
              out := out + [p];
            } else {
              inp := inp + [p];
            }
          }
        }
        j := j + 1;
      }
      assert card.ports[..j] == card.ports;
    }

    /** defaultInit. */
    method DefaultInit(cards: seq<Card>)
      requires output != input
      modifies output, input
      ensures output.View() == FromDefault(old(output.View()), AvailablePorts(cards, Sink))
      ensures input.View() == FromDefault(old(input.View()), AvailablePorts(cards, Source))
    {
      output.CompleteTypes();
      input.CompleteTypes();
      var i := 0;
      while i < |cards|
        invariant 0 <= i <= |cards|
        invariant output.types == Completed(old(output.types), PORT_TYPE_COUNT)
        invariant input.types == Completed(old(input.types), PORT_TYPE_COUNT)
        invariant output.ports == AddAll(output.types, old(output.ports), AvailablePorts(cards[..i], Sink))
        invariant input.ports == AddAll(input.types, old(input.ports), AvailablePorts(cards[..i], Source))
      {
        ChosenStep(cards, i, AvailableTest(Sink));
        ChosenStep(cards, i, AvailableTest(Source));
        AddAllConcat(output.types, old(output.ports), AvailablePorts(cards[..i], Sink),
                     ChosenOn(cards[i].name, cards[i].ports, AvailableTest(Sink)));
        AddAllConcat(input.types, old(input.ports), AvailablePorts(cards[..i], Source),
                     ChosenOn(cards[i].name, cards[i].ports, AvailableTest(Source)));
        AddCard(cards[i]);
        i := i + 1;
      }
      assert cards[..i] == cards;
    }

    /** The inner loop of defaultInit. */
    method AddCard(card: Card)
      requires output != input
      modifies output`ports, input`ports
      ensures var list := ChosenOn(card.name, card.ports, AvailableTest(Sink));
              output.ports == AddAll(output.types, old(output.ports), list)
      ensures var list := ChosenOn(card.name, card.ports, AvailableTest(Source));
              input.ports == AddAll(input.types, old(input.ports), list)
    {
      var j := 0;
      while j < |card.ports|
        invariant 0 <= j <= |card.ports|
        invariant var list := ChosenOn(card.name, card.ports[..j], AvailableTest(Sink));
                  output.ports == AddAll(output.types, old(output.ports), list)
        invariant var list := ChosenOn(card.name, card.ports[..j], AvailableTest(Source));
                  input.ports == AddAll(input.types, old(input.ports), list)
      {
        var port := card.ports[j];
        AddAllStep(output.types, old(output.ports), card.name, card.ports, j, AvailableTest(Sink));
        AddAllStep(input.types, old(input.ports), card.name, card.ports, j, AvailableTest(Source));
        if port.available {
          var p := Port(card.name, port.name, port.kind);
          if port.direction == Sink {
            var _ := output.AddPort(p);
          } else if port.direction == Source {
            var _ := input.AddPort(p);
          }
        }
        j := j + 1;
      }
      assert card.ports[..j] == card.ports;
    }

    /** Init; `loaded` is what the settings file held, if it could be read. */
    method Init(keeper: ConfigKeeper, cards: seq<Card>, loaded: Option<(Policy, Policy)>)
      requires output != input
      modifies output, input, keeper
      ensures loaded.None? ==>
                && output.View() == FromDefault(old(output.View()), AvailablePorts(cards, Sink))
                && input.View() == FromDefault(old(input.View()), AvailablePorts(cards, Source))
      ensures loaded.Some? ==>
                && FromFile(loaded.value.0, UsablePorts(old(keeper.cards), cards, true), output.View())
                && FromFile(loaded.value.1, UsablePorts(old(keeper.cards), cards, false), input.View())
    {
      if loaded == None {
        DefaultInit(cards);
        return;
      }
      output.types, output.ports := loaded.value.0.types, loaded.value.0.ports;
      input.types, input.ports := loaded.value.1.types, loaded.value.1.ports;
      SetPorts(keeper, cards);
      output.CompleteTypes();
      output.SortPorts();
      input.CompleteTypes();
      input.SortPorts();
    }
  }

  /** A policy after defaultInit. */
  function FromDefault(s: Policy, list: seq<Port>): Policy {
    var types := Completed(s.types, PORT_TYPE_COUNT);
    Policy(types, AddAll(types, s.ports, list))
  }

  /** A policy t after Init has loaded s and found the ports in the list. */
  ghost predicate FromFile(s: Policy, list: seq<Port>, t: Policy) {
    var r := Reconciled(s.types, s.ports, list);
    && t.types == Completed(s.types, PORT_TYPE_COUNT)
    && multiset(t.ports) == multiset(r)
    && (NoneInvalid(r) ==> t.ports == SortOnce(t.types, r))
  }

  // ---- what the policies offer ----

  /** Some current card has a plugged-in, enabled port with this key in this direction. */
  ghost predicate Offered(configs: CardConfigs, cards: seq<Card>, sink: bool, key: Key) {
    exists i, j :: 0 <= i < |cards| && 0 <= j < |cards[i].ports|
                   && Usable(configs, cards[i].name, cards[i].ports[j], sink)
                   && key == Key(cards[i].name, cards[i].ports[j].name)
  }

  /** DetectPortType never returns the invalid type. */
  ghost predicate Detected(cards: seq<Card>) {
    forall i, j :: 0 <= i < |cards| && 0 <= j < |cards[i].ports| ==> InRange(cards[i].ports[j].kind)
  }

  lemma OfferedIsListed(configs: CardConfigs, cards: seq<Card>, sink: bool, key: Key)
    ensures key in Keys(UsablePorts(configs, cards, sink)) <==> Offered(configs, cards, sink, key)
  {
    var list, test := UsablePorts(configs, cards, sink), UsableTest(configs, sink);
    if key in Keys(list) {
      var q :| q in list && KeyOf(q) == key;
      ChosenMembers(cards, test, q);
      var i :| 0 <= i < |cards| && Picked(cards[i], test, q);
      var j :| 0 <= j < |cards[i].ports| && test(cards[i].name, cards[i].ports[j])
               && q == PortOf(cards[i].name, cards[i].ports[j]);
      assert Usable(configs, cards[i].name, cards[i].ports[j], sink);
    }
    if i, j :| 0 <= i < |cards| && 0 <= j < |cards[i].ports|
               && Usable(configs, cards[i].name, cards[i].ports[j], sink)
               && key == Key(cards[i].name, cards[i].ports[j].name) {
      var q := PortOf(cards[i].name, cards[i].ports[j]);
      assert test(cards[i].name, cards[i].ports[j]) && Picked(cards[i], test, q);
      ChosenMembers(cards, test, q);
      assert KeyOf(q) == key;
    }
  }

  lemma ChosenInRange(cards: seq<Card>, test: Test)
    requires Detected(cards)
    ensures AllInRange(Chosen(cards, test))
  {
    var list := Chosen(cards, test);
    forall k | 0 <= k < |list| ensures InRange(list[k].kind) {
      ChosenMembers(cards, test, list[k]);
      var i :| 0 <= i < |cards| && Picked(cards[i], test, list[k]);
    }
  }

  lemma ReconciledValid(types: seq<int>, ports: seq<Port>, list: seq<Port>)
    requires NoneInvalid(ports) && NoneInvalid(list)
    ensures NoneInvalid(Reconciled(types, ports, list))
  {
    var r := Reconciled(types, ports, list);
    forall k | 0 <= k < |r| ensures r[k].kind != PORT_TYPE_INVALID {
      ReconciledMembers(types, ports, list, r[k]);
    }
  }

  /** The first of a list of valid ports that has exactly the usable keys. */
  lemma FirstOffered(r: seq<Port>, configs: CardConfigs, cards: seq<Card>, sink: bool)
    requires NoneInvalid(r) && Keys(r) == Keys(UsablePorts(configs, cards, sink))
    ensures var first := FirstPortOf(r);
            && (first.kind == PORT_TYPE_INVALID <==> forall key :: !Offered(configs, cards, sink, key))
            && (first.kind != PORT_TYPE_INVALID ==> Offered(configs, cards, sink, KeyOf(first)))
  {
    if r == [] {
      forall key ensures !Offered(configs, cards, sink, key) {
        OfferedIsListed(configs, cards, sink, key);
      }
    } else {
      KeyListed(r, 0);
      OfferedIsListed(configs, cards, sink, KeyOf(r[0]));
    }
  }

  /** After SetPorts the first port of a policy is invalid exactly when nothing is offered in its
      direction; otherwise it is an offered port, so switching to it never targets a disabled or
      unplugged one. The ranking may be incomplete and the ports in any order. */
  lemma FirstPortIsOffered(types: seq<int>, ports: seq<Port>, configs: CardConfigs, cards: seq<Card>, sink: bool)
    requires NoneInvalid(ports) && Detected(cards)
    ensures var first := FirstPortOf(Reconciled(types, ports, UsablePorts(configs, cards, sink)));
            && (first.kind == PORT_TYPE_INVALID <==> forall key :: !Offered(configs, cards, sink, key))
            && (first.kind != PORT_TYPE_INVALID ==> Offered(configs, cards, sink, KeyOf(first)))
  {
    var list := UsablePorts(configs, cards, sink);
    ChosenInRange(cards, UsableTest(configs, sink));
    ReconciledValid(types, ports, list);
    SetPortsKeys(types, ports, list);
    FirstOffered(Reconciled(types, ports, list), configs, cards, sink);
  }

  /** A port that may be switched to: plugged in, not disabled in the settings, and of the direction. */
  ghost predicate Switchable(configs: CardConfigs, name: string, port: CardPort, sink: bool) {
    && port.available
    && (name in configs && port.name in configs[name] ==> configs[name][port.name].enabled)
    && (if sink then port.direction == Sink else port.direction != Sink)
  }

  /** What SetPorts hands to a policy: exactly the switchable ports of its direction, under their card. */
  lemma UsableExactly(configs: CardConfigs, cards: seq<Card>, sink: bool, q: Port)
    ensures q in UsablePorts(configs, cards, sink) <==>
            exists i, j :: 0 <= i < |cards| && 0 <= j < |cards[i].ports|
                           && Switchable(configs, cards[i].name, cards[i].ports[j], sink)
                           && q == Port(cards[i].name, cards[i].ports[j].name, cards[i].ports[j].kind)
  {
    var test := UsableTest(configs, sink);
    ChosenMembers(cards, test, q);
    forall name, port: CardPort ensures test(name, port) <==> Switchable(configs, name, port, sink) {
    }
    if i :| 0 <= i < |cards| && Picked(cards[i], test, q) {
      var j :| 0 <= j < |cards[i].ports| && test(cards[i].name, cards[i].ports[j])
               && q == PortOf(cards[i].name, cards[i].ports[j]);
      assert Switchable(configs, cards[i].name, cards[i].ports[j], sink);
    }
    if i, j :| 0 <= i < |cards| && 0 <= j < |cards[i].ports|
               && Switchable(configs, cards[i].name, cards[i].ports[j], sink)
               && q == Port(cards[i].name, cards[i].ports[j].name, cards[i].ports[j].kind) {
      assert test(cards[i].name, cards[i].ports[j]);
      assert Picked(cards[i], test, q);
    }
  }

  /** The first of a list of valid ports with exactly the keys of the switchable ones. */
  lemma FirstSwitchable(r: seq<Port>, configs: CardConfigs, cards: seq<Card>, sink: bool)
    requires NoneInvalid(r) && Keys(r) == Keys(UsablePorts(configs, cards, sink))
    ensures (FirstPortOf(r).kind == PORT_TYPE_INVALID) <==>
            forall i, j :: 0 <= i < |cards| && 0 <= j < |cards[i].ports| ==>
              !Switchable(configs, cards[i].name, cards[i].ports[j], sink)
    ensures FirstPortOf(r).kind != PORT_TYPE_INVALID ==>
            exists i, j :: 0 <= i < |cards| && 0 <= j < |cards[i].ports|
                           && Switchable(configs, cards[i].name, cards[i].ports[j], sink)
                           && KeyOf(FirstPortOf(r)) == Key(cards[i].name, cards[i].ports[j].name)
  {
    var list := UsablePorts(configs, cards, sink);
    if r == [] {
      forall i, j | 0 <= i < |cards| && 0 <= j < |cards[i].ports|
        ensures !Switchable(configs, cards[i].name, cards[i].ports[j], sink)
      {
        var q := Port(cards[i].name, cards[i].ports[j].name, cards[i].ports[j].kind);
        UsableExactly(configs, cards, sink, q);
        assert q in list ==> KeyOf(q) in Keys(list);
      }
    } else {
      KeyListed(r, 0);
      var q :| q in list && KeyOf(q) == KeyOf(r[0]);
      UsableExactly(configs, cards, sink, q);
    }
  }

  /** After SetPorts the first port is invalid if and only if no current card has a port that is plugged in,
      enabled and of the direction; otherwise such a port has the first port's key. */
  lemma FirstPortIsSwitchable(types: seq<int>, ports: seq<Port>, configs: CardConfigs, cards: seq<Card>, sink: bool)
    requires NoneInvalid(ports) && Detected(cards)
    ensures var first := FirstPortOf(Reconciled(types, ports, UsablePorts(configs, cards, sink)));
            && (first.kind == PORT_TYPE_INVALID <==>
                  forall i, j :: 0 <= i < |cards| && 0 <= j < |cards[i].ports| ==>
                    !Switchable(configs, cards[i].name, cards[i].ports[j], sink))
            && (first.kind != PORT_TYPE_INVALID ==>
                  exists i, j :: 0 <= i < |cards| && 0 <= j < |cards[i].ports|
                                 && Switchable(configs, cards[i].name, cards[i].ports[j], sink)
                                 && KeyOf(first) == Key(cards[i].name, cards[i].ports[j].name))
  {
    var list := UsablePorts(configs, cards, sink);
    ChosenInRange(cards, UsableTest(configs, sink));
    ReconciledValid(types, ports, list);
    SetPortsKeys(types, ports, list);
    FirstSwitchable(Reconciled(types, ports, list), configs, cards, sink);
  }

  /** What defaultInit adds: exactly the plugged-in ports of the direction, enabled or not. */
  lemma AvailableExactly(cards: seq<Card>, direction: Direction, q: Port)
    ensures q in AvailablePorts(cards, direction) <==>
            exists i, j :: 0 <= i < |cards| && 0 <= j < |cards[i].ports|
                           && cards[i].ports[j].available && cards[i].ports[j].direction == direction
                           && q == Port(cards[i].name, cards[i].ports[j].name, cards[i].ports[j].kind)
  {
    var test := AvailableTest(direction);
    ChosenMembers(cards, test, q);
    if i :| 0 <= i < |cards| && Picked(cards[i], test, q) {
      var j :| 0 <= j < |cards[i].ports| && test(cards[i].name, cards[i].ports[j])
               && q == PortOf(cards[i].name, cards[i].ports[j]);
      assert cards[i].ports[j].available;
    }
    if i, j :| 0 <= i < |cards| && 0 <= j < |cards[i].ports|
               && cards[i].ports[j].available && cards[i].ports[j].direction == direction
               && q == Port(cards[i].name, cards[i].ports[j].name, cards[i].ports[j].kind) {
      assert test(cards[i].name, cards[i].ports[j]);
      assert Picked(cards[i], test, q);
    }
  }

  // ---- initialisation ----

  lemma SameKeys(a: seq<Port>, b: seq<Port>)
    requires multiset(a) == multiset(b)
    ensures Keys(a) == Keys(b)
  {
    forall p ensures p in a <==> p in b {
      assert p in a <==> p in multiset(a);
      assert p in b <==> p in multiset(b);
    }
  }

  /** The same holds right after Init has read a stored policy, and sorted what SetPorts left. */
  lemma InitFirstPortIsOffered(s: Policy, t: Policy, configs: CardConfigs, cards: seq<Card>, sink: bool)
    requires NoneInvalid(s.ports) && Detected(cards) && FromFile(s, UsablePorts(configs, cards, sink), t)
    ensures var first := FirstPortOf(t.ports);
            && (first.kind == PORT_TYPE_INVALID <==> forall key :: !Offered(configs, cards, sink, key))
            && (first.kind != PORT_TYPE_INVALID ==> Offered(configs, cards, sink, KeyOf(first)))
  {
    var list := UsablePorts(configs, cards, sink);
    ChosenInRange(cards, UsableTest(configs, sink));
    ReconciledValid(s.types, s.ports, list);
    SetPortsKeys(s.types, s.ports, list);
    SameKinds(Reconciled(s.types, s.ports, list), t.ports);
    SameKeys(Reconciled(s.types, s.ports, list), t.ports);
    FirstOffered(t.ports, configs, cards, sink);
  }

  /** After Init with a stored policy the ports follow the completed ranking if and only if what SetPorts
      left is nearly ordered by it. */
  lemma InitOrdersExactly(s: Policy, list: seq<Port>, t: Policy)
    requires NoneInvalid(s.ports) && NoneInvalid(list) && FromFile(s, list, t)
    ensures Ordered(t.types, t.ports) <==> NearlyOrdered(t.types, Reconciled(s.types, s.ports, list))
    ensures Complete(t.types) <==> Distinct(s.types) && forall k :: 0 <= k < |s.types| ==> InRange(s.types[k])
  {
    ReconciledValid(s.types, s.ports, list);
    SortsExactlyWhen(t.types, Reconciled(s.types, s.ports, list));
    CompletedExactly(s.types);
  }

  lemma {:induction false} RankInExtension(types: seq<int>, more: seq<int>, t: int)
    requires types <= more && t in types
    ensures Rank(more, t) == Rank(types, t)
  {
    if types[0] != t {
      assert types[1..] <= more[1..];
      RankInExtension(types[1..], more[1..], t);
    }
  }

  /** Types that the stored ranking knows cause no trouble: ports ordered by it stay ordered through Init,
      and the final sort moves nothing. */
  lemma InitKeepsOrder(s: Policy, list: seq<Port>, t: Policy)
    requires NoneInvalid(s.ports) && NoneInvalid(list) && FromFile(s, list, t)
    requires Ordered(s.types, s.ports)
    requires forall p :: p in s.ports || p in list ==> p.kind in s.types
    ensures Ordered(t.types, t.ports) && t.ports == Reconciled(s.types, s.ports, list)
  {
    var r := Reconciled(s.types, s.ports, list);
    ReconciledValid(s.types, s.ports, list);
    ReconciledOrdered(s.types, s.ports, list);
    CompletedExtends(s.types, PORT_TYPE_COUNT);
    forall i | 0 <= i < |r| ensures PortRank(t.types, r[i]) == PortRank(s.types, r[i]) {
      ReconciledMembers(s.types, s.ports, list, r[i]);
      RankInExtension(s.types, t.types, r[i].kind);
    }
    SortOnceIdentity(t.types, r);
  }

  lemma {:induction false} AddAllRanked(types: seq<int>, ports: seq<Port>, list: seq<Port>)
    requires AllInRange(ports) && AllInRange(list) && Ordered(types, ports)
    ensures AllInRange(AddAll(types, ports, list)) && Ordered(types, AddAll(types, ports, list))
    ensures multiset(AddAll(types, ports, list)) == multiset(ports) + multiset(list)
  {
    if list != [] {
      var n := |list| - 1;
      assert list == list[..n] + [list[n]];
      AddAllRanked(types, ports, list[..n]);
      var before := AddAll(types, ports, list[..n]);
      AddedOrdered(types, before, list[n]);
      AddedCounts(types, before, list[n]);
    }
  }

  lemma AddedCounts(types: seq<int>, ports: seq<Port>, p: Port)
    ensures multiset(Added(types, ports, p)) == multiset(ports) + multiset{p}
    ensures AllInRange(ports) && InRange(p.kind) ==> AllInRange(Added(types, ports, p))
  {
    var i := AddIndex(types, ports, p);
    assert ports == ports[..i] + ports[i..];
  }

  /** defaultInit on an empty policy ranks all types and lists exactly the plugged-in ports, in order. */
  lemma DefaultInitRanks(cards: seq<Card>, direction: Direction)
    requires Detected(cards)
    ensures var list := AvailablePorts(cards, direction);
            var t := FromDefault(Policy([], []), list);
            WellRanked(t) && multiset(t.ports) == multiset(list)
  {
    var list := AvailablePorts(cards, direction);
    ChosenInRange(cards, AvailableTest(direction));
    CompletedExactly([]);
    AddAllRanked(Completed([], PORT_TYPE_COUNT), [], list);
  }

  /** Place k holds the last port of the best rank in the list. */
  ghost predicate LastOfBest(types: seq<int>, list: seq<Port>, k: nat) {
    && k < |list|
    && (forall j :: 0 <= j < |list| ==> PortRank(types, list[k]) <= PortRank(types, list[j]))
    && (forall j :: k < j < |list| ==> PortRank(types, list[k]) < PortRank(types, list[j]))
  }

  /** Ports added one after the other to an empty list: the last one of the best rank comes first. */
  lemma {:induction false} FirstOfAll(types: seq<int>, list: seq<Port>) returns (k: nat)
    requires list != [] && forall i :: 0 <= i < |list| ==> list[i].kind in types && list[i].kind != PORT_TYPE_INVALID
    ensures LastOfBest(types, list, k)
    ensures var r := AddAll(types, [], list); r != [] && r[0] == list[k]
    decreases |list|
  {
    var n := |list| - 1;
    var before, p := AddAll(types, [], list[..n]), list[n];
    assert AddAll(types, [], list) == Added(types, before, p);
    if n == 0 {
      assert list[..n] == [];
      k := 0;
    } else {
      k := FirstOfAll(types, list[..n]);
      PreferFirst(types, p.kind, before[0].kind);
      AddedFirst(types, before, p);
      if PortRank(types, p) <= PortRank(types, before[0]) {
        k := n;
      }
    }
  }

  lemma AddedFirst(types: seq<int>, ports: seq<Port>, p: Port)
    requires ports != [] && p.kind in types && p.kind != PORT_TYPE_INVALID
    ensures var r := Added(types, ports, p);
            r != [] && r[0] == if PortRank(types, p) <= PortRank(types, ports[0]) then p else ports[0]
  {
    PreferFirst(types, p.kind, ports[0].kind);
  }

  lemma DefaultRank(t: int)
    requires InRange(t)
    ensures t in Completed([], PORT_TYPE_COUNT) && Rank(Completed([], PORT_TYPE_COUNT), t) == t
  {
    CompletedNumbers(PORT_TYPE_COUNT);
    CompletedHas([], PORT_TYPE_COUNT, t);
  }

  /** A plugged-in port of the direction is offered exactly when it is enabled. */
  lemma AvailableIsOfferedIfEnabled(configs: CardConfigs, cards: seq<Card>, direction: Direction, p: Port)
    requires direction != Unexpected && p in AvailablePorts(cards, direction)
    ensures Offered(configs, cards, direction == Sink, KeyOf(p)) <==> IsEnabled(configs, p.card, p.name)
  {
    ChosenMembers(cards, AvailableTest(direction), p);
    var i :| 0 <= i < |cards| && Picked(cards[i], AvailableTest(direction), p);
    var j :| 0 <= j < |cards[i].ports| && AvailableTest(direction)(cards[i].name, cards[i].ports[j])
             && p == PortOf(cards[i].name, cards[i].ports[j]);
    if IsEnabled(configs, p.card, p.name) {
      assert Usable(configs, cards[i].name, cards[i].ports[j], direction == Sink);
    }
  }

  ghost predicate LastOfSmallest(list: seq<Port>, k: nat) {
    && k < |list|
    && (forall j :: 0 <= j < |list| ==> list[k].kind <= list[j].kind)
    && (forall j :: k < j < |list| ==> list[k].kind < list[j].kind)
  }

  /** The ports of a policy that was empty before defaultInit. */
  function DefaultPorts(list: seq<Port>): seq<Port> {
    FromDefault(Policy([], []), list).ports
  }

  lemma DefaultFirst(list: seq<Port>) returns (k: nat)
    requires list != [] && AllInRange(list)
    ensures LastOfSmallest(list, k) && FirstPortOf(DefaultPorts(list)) == list[k]
  {
    var types := Completed([], PORT_TYPE_COUNT);
    forall i | 0 <= i < |list| ensures list[i].kind in types && PortRank(types, list[i]) == list[i].kind {
      DefaultRank(list[i].kind);
    }
    k := FirstOfAll(types, list);
    assert DefaultPorts(list) == AddAll(types, [], list);
  }

  /** After defaultInit the first port is invalid if and only if nothing is plugged in; otherwise it is the
      last listed port of the smallest type present, and it is offered if and only if it is enabled. */
  lemma DefaultFirstPort(configs: CardConfigs, cards: seq<Card>, direction: Direction)
    requires Detected(cards) && direction != Unexpected
    ensures var list := AvailablePorts(cards, direction);
            var first := FirstPortOf(DefaultPorts(list));
            && (first.kind == PORT_TYPE_INVALID <==> list == [])
            && (list != [] ==>
                  && (exists k: nat :: LastOfSmallest(list, k) && first == list[k])
                  && (Offered(configs, cards, direction == Sink, KeyOf(first)) <==>
                      IsEnabled(configs, first.card, first.name)))
  {
    var list := AvailablePorts(cards, direction);
    ChosenInRange(cards, AvailableTest(direction));
    if list != [] {
      var k := DefaultFirst(list);
      AvailableIsOfferedIfEnabled(configs, cards, direction, list[k]);
    } else {
      NoDefaultPorts();
    }
  }

  lemma NoDefaultPorts()
    ensures DefaultPorts([]) == []
  {
  }

  /** So without a stored policy the first port may be a disabled one: a single plugged-in sink port that is
      configured disabled is first although nothing is offered. */
  lemma DefaultMayPickDisabled(configs: CardConfigs, card: Card, port: CardPort)
    requires card.ports == [port] && port.available && port.direction == Sink && InRange(port.kind)
    requires !IsEnabled(configs, card.name, port.name)
    ensures FirstPortOf(DefaultPorts(AvailablePorts([card], Sink))) == PortOf(card.name, port)
    ensures forall key :: !Offered(configs, [card], true, key)
  {
    OnlyAvailable(card, port);
    var k := DefaultFirst([PortOf(card.name, port)]);
    forall key ensures !Offered(configs, [card], true, key) {
      OnlyUsable(configs, card, port, key);
    }
  }

  lemma OnlyAvailable(card: Card, port: CardPort)
    requires card.ports == [port] && port.available && port.direction == Sink
    ensures AvailablePorts([card], Sink) == [PortOf(card.name, port)]
  {
    assert [port][1..] == [] && [card][1..] == [];
    assert ChosenOn(card.name, [port], AvailableTest(Sink)) == [PortOf(card.name, port)];
    assert Chosen([], AvailableTest(Sink)) == [];
  }

  lemma OnlyUsable(configs: CardConfigs, card: Card, port: CardPort, key: Key)
    requires card.ports == [port] && !IsEnabled(configs, card.name, port.name)
    ensures !Offered(configs, [card], true, key)
  {
    forall i, j | 0 <= i < |[card]| && 0 <= j < |[card][i].ports|
      ensures !Usable(configs, [card][i].name, [card][i].ports[j], true)
    {
    }
  }
}
