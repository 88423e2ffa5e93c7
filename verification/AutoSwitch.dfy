/** Automatic port switching (audio/audio_events.go): how often a port that cannot be reached is retried. */
module AutoSwitch {
  import opened PortRanking

  /** The last switch target of one direction and how often it has been retried. */
  datatype Memory = Memory(target: Key, count: int)

  datatype Device = NoDevice | Active(port: Key)

  /** What an event finds: whether switching is enabled and what the default device uses. */
  datatype Situation = Situation(enabled: bool, device: Device)

  function Max(a: int, b: int): int {
    if a >= b then a else b
  }

  /** Retries left for a first port. */
  function Budget(m: Memory, first: Port, limit: int): nat {
    if m.target == KeyOf(first) then Max(0, limit - m.count) else 1 + Max(0, limit)
  }

  /** There is a first port to switch to, and either no device at all or one on another port with a
      retry left. */
  predicate NeedSwitch(m: Memory, first: Port, now: Situation, limit: int) {
    && now.enabled
    && first.kind != PORT_TYPE_INVALID
    && (now.device == NoDevice || (now.device.port != KeyOf(first) && Budget(m, first, limit) > 0))
  }

  function Remember(m: Memory, first: Port): Memory {
    if m.target == KeyOf(first) then m.(count := m.count + 1) else Memory(KeyOf(first), 0)
  }

  const INPUT_LIMIT: int := 10

  class Audio {
    var outputCard: string
    var outputPort: string
    var outputCount: int
    var outputLimit: int
    var inputCard: string
    var inputPort: string
    var inputCount: int

    ghost function Output(): Memory
      reads this
    {
      Memory(Key(outputCard, outputPort), outputCount)
    }

    ghost function Input(): Memory
      reads this
    {
      Memory(Key(inputCard, inputPort), inputCount)
    }

    constructor (limit: int)
      ensures Output() == Input() == Memory(Key("", ""), 0) && outputLimit == limit
    {
      outputCard, outputPort, outputCount, outputLimit := "", "", 0, limit;
      inputCard, inputPort, inputCount := "", "", 0;
    }

    /** needAutoSwitchOutputPort. */
    method NeedAutoSwitchOutputPort(first: Port, now: Situation) returns (need: bool)
      ensures need <==> NeedSwitch(Output(), first, now, outputLimit)
    {
      if !now.enabled {
        return false;
      }
      if first.kind == PORT_TYPE_INVALID {
        return false;
      }
      if now.device.NoDevice? {
        return true;
      }
      if outputCount >= outputLimit && outputCard == first.card && outputPort == first.name {
        return false;
      }
      var current := now.device.port;
      if current.card == first.card && current.name == first.name {
        return false;
      }
      return true;
    }

    /** needAutoSwitchInputPort. */
    method NeedAutoSwitchInputPort(first: Port, now: Situation) returns (need: bool)
      ensures need <==> NeedSwitch(Input(), first, now, INPUT_LIMIT)
    {
      if !now.enabled {
        return false;
      }
      if first.kind == PORT_TYPE_INVALID {
        return false;
      }
      if now.device.NoDevice? {
        return true;
      }
      if inputCount >= INPUT_LIMIT && inputCard == first.card && inputPort == first.name {
        return false;
      }
      var current := now.device.port;
      if current.card == first.card && current.name == first.name {
        return false;
      }
      return true;
    }

    /** autoSwitchPort, with the switch requests as results. A request for a port uses up one of its
        retries; without a request nothing changes. */
    method AutoSwitchPort(firstOutput: Port, firstInput: Port, outputNow: Situation, inputNow: Situation)
      returns (switchOutput: bool, switchInput: bool)
      modifies this
      ensures outputLimit == old(outputLimit)
      ensures switchOutput <==> NeedSwitch(old(Output()), firstOutput, outputNow, outputLimit)
      ensures switchInput <==> NeedSwitch(old(Input()), firstInput, inputNow, INPUT_LIMIT)
      ensures Output() == if switchOutput then Remember(old(Output()), firstOutput) else old(Output())
      ensures Input() == if switchInput then Remember(old(Input()), firstInput) else old(Input())
      ensures switchOutput ==>
                && outputNow.enabled && firstOutput.kind != PORT_TYPE_INVALID
                && outputNow.device != Active(KeyOf(firstOutput))
      ensures switchInput ==>
                && inputNow.enabled && firstInput.kind != PORT_TYPE_INVALID
                && inputNow.device != Active(KeyOf(firstInput))
      ensures switchOutput ==>
                && Output().target == KeyOf(firstOutput)
                && Budget(Output(), firstOutput, outputLimit)
                   == Max(0, Budget(old(Output()), firstOutput, outputLimit) - 1)
      ensures switchInput ==>
                && Input().target == KeyOf(firstInput)
                && Budget(Input(), firstInput, INPUT_LIMIT) == Max(0, Budget(old(Input()), firstInput, INPUT_LIMIT) - 1)
    {
      switchOutput := NeedAutoSwitchOutputPort(firstOutput, outputNow);
      if switchOutput {
        if outputCard == firstOutput.card && outputPort == firstOutput.name {
          outputCount := outputCount + 1;
        } else {
          outputCount := 0;
          outputCard, outputPort := firstOutput.card, firstOutput.name;
        }
      }
      switchInput := NeedAutoSwitchInputPort(firstInput, inputNow);
      if switchInput {
        if inputCard == firstInput.card && inputPort == firstInput.name {
          inputCount := inputCount + 1;
        } else {
          inputCount := 0;
          inputCard, inputPort := firstInput.card, firstInput.name;
        }
      }
    }

    /** What choosing headset mode and writing the noise-reduction property do to the input counter: the
        target is kept, so its retries start over. */
    method ResetInputCount()
      modifies this`inputCount
      ensures Input() == Forgive(old(Input()))
      ensures forall first: Port :: Input().target == KeyOf(first) ==>
                Budget(Input(), first, INPUT_LIMIT) == INPUT_LIMIT
    {
      inputCount := 0;
    }

    /** What connecting to the sound server again does. */
    method ResetCounts()
      modifies this`inputCount, this`outputCount
      ensures Input() == Forgive(old(Input())) && Output() == Forgive(old(Output()))
    {
      inputCount := 0;
      outputCount := 0;
    }
  }

  function Forgive(m: Memory): Memory {
    m.(count := 0)
  }

  // ---- whole runs with one first port ----

  datatype Event = Fire(now: Situation) | Reset

  /** The number of switches requested over a run. */
  function Switches(m: Memory, first: Port, events: seq<Event>, limit: int): nat
    decreases |events|
  {
    if events == [] then 0
    else if events[0].Reset? then Switches(Forgive(m), first, events[1..], limit)
    else if NeedSwitch(m, first, events[0].now, limit) then 1 + Switches(Remember(m, first), first, events[1..], limit)
    else Switches(m, first, events[1..], limit)
  }

  function Resets(events: seq<Event>): nat {
    if events == [] then 0 else (if events[0].Reset? then 1 else 0) + Resets(events[1..])
  }

  /** However often events fire, a port is tried at most limit + 1 times while a default device exists, and
      at most limit times more for each reset of the counter. */
  lemma {:induction false} SwitchesAreBounded(m: Memory, first: Port, events: seq<Event>, limit: int)
    requires m.count >= 0
    requires forall i :: 0 <= i < |events| ==> events[i].Fire? ==> events[i].now.device.Active?
    ensures Switches(m, first, events, limit) <= Budget(m, first, limit) + Max(0, limit) * Resets(events)
    ensures Budget(m, first, limit) <= Max(0, limit) + 1
    decreases |events|
  {
    if events != [] {
      var rest, most := events[1..], Max(0, limit);
      if events[0].Reset? {
        SwitchesAreBounded(Forgive(m), first, rest, limit);
        assert most * (1 + Resets(rest)) == most + most * Resets(rest);
      } else if NeedSwitch(m, first, events[0].now, limit) {
        SwitchesAreBounded(Remember(m, first), first, rest, limit);
      } else {
        SwitchesAreBounded(m, first, rest, limit);
      }
    }
  }

  /** Exactly when a switch is requested, by the counter itself: enabled, a valid first port, and either no
      device, or one on another port and not yet limit retries of this very port. */
  lemma NeedSwitchExactly(m: Memory, first: Port, now: Situation, limit: int)
    ensures NeedSwitch(m, first, now, limit) <==>
            && now.enabled && first.kind != -1
            && (now.device == NoDevice
                || (now.device != Active(Key(first.card, first.name))
                    && (m.target != Key(first.card, first.name) || m.count < limit)))
  {
  }

  /** A request is remembered: one retry more for the same target, none yet for a new one. */
  lemma RememberExactly(m: Memory, first: Port)
    ensures var r := Remember(m, first);
            && r.target == Key(first.card, first.name)
            && r.count == if m.target == Key(first.card, first.name) then m.count + 1 else 0
  {
  }

  /** Nothing to do: switching is disabled, or the device is on the first port already. */
  ghost predicate Settled(now: Situation, first: Port) {
    !now.enabled || now.device == Active(KeyOf(first))
  }

  /** Events that find nothing to do never cause a switch, however the counter is reset in between. */
  lemma {:induction false} SettledNeverSwitches(m: Memory, first: Port, events: seq<Event>, limit: int)
    requires forall i :: 0 <= i < |events| ==> events[i].Fire? ==> Settled(events[i].now, first)
    ensures Switches(m, first, events, limit) == 0
    decreases |events|
  {
    if events != [] {
      SettledNeverSwitches(if events[0].Reset? then Forgive(m) else m, first, events[1..], limit);
    }
  }

  /** Switching is enabled and the device stays on another port: every attempt fails. */
  ghost predicate Failing(now: Situation, first: Port) {
    now.enabled && first.kind != PORT_TYPE_INVALID && now.device.Active? && now.device.port != KeyOf(first)
  }

  /** Without resets the budget is used up exactly when switching keeps failing. */
  lemma {:induction false} FailingUsesBudget(m: Memory, first: Port, events: seq<Event>, limit: int)
    requires m.count >= 0
    requires forall i :: 0 <= i < |events| ==> events[i].Fire? && Failing(events[i].now, first)
    ensures Switches(m, first, events, limit)
            == if |events| <= Budget(m, first, limit) then |events| else Budget(m, first, limit)
    decreases |events|
  {
    if events != [] {
      assert events[0].Fire? && Failing(events[0].now, first);
      if NeedSwitch(m, first, events[0].now, limit) {
        FailingUsesBudget(Remember(m, first), first, events[1..], limit);
      } else {
        FailingUsesBudget(m, first, events[1..], limit);
      }
    }
  }

  /** Failing until nothing is left, then a reset, k times over. */
  function Retry(left: nat, now: Situation, limit: nat, k: nat): seq<Event>
    decreases k, left
  {
    if left > 0 then [Fire(now)] + Retry(left - 1, now, limit, k)
    else if k > 0 then [Reset] + Retry(limit, now, limit, k - 1)
    else []
  }

  /** The bound is reached: k resets do allow limit * k more switches. */
  lemma {:induction false} ResetsReopen(m: Memory, first: Port, now: Situation, limit: nat, k: nat, left: nat)
    requires m.count >= 0 && Failing(now, first) && left == Budget(m, first, limit)
    ensures var run := Retry(left, now, limit, k);
            Resets(run) == k && Switches(m, first, run, limit) == left + limit * k
    decreases k, left
  {
    var run := Retry(left, now, limit, k);
    if left > 0 {
      var rest := Retry(left - 1, now, limit, k);
      assert run[0] == Fire(now) && run[1..] == rest;
      ResetsReopen(Remember(m, first), first, now, limit, k, left - 1);
    } else if k > 0 {
      var rest := Retry(limit, now, limit, k - 1);
      assert run[0] == Reset && run[1..] == rest;
      ResetsReopen(Forgive(m), first, now, limit, k - 1, limit);
      assert limit * k == limit + limit * (k - 1);
    }
  }

  /** The input direction after eleven failed switches: refused, and accepted again after one reset. */
  lemma InputReopens(first: Port, now: Situation)
    requires Failing(now, first)
    ensures var m := Memory(KeyOf(first), INPUT_LIMIT);
            !NeedSwitch(m, first, now, INPUT_LIMIT) && NeedSwitch(Forgive(m), first, now, INPUT_LIMIT)
    ensures Switches(Memory(KeyOf(first), INPUT_LIMIT), first, Retry(0, now, INPUT_LIMIT, 1), INPUT_LIMIT) == 10
  {
    ResetsReopen(Memory(KeyOf(first), INPUT_LIMIT), first, now, INPUT_LIMIT, 1, 0);
  }

  /** Without a default device there is no bound: every event switches. */
  lemma {:induction false} SwitchesWithoutDevice(m: Memory, first: Port, events: seq<Event>, limit: int)
    requires first.kind != PORT_TYPE_INVALID
    requires forall i :: 0 <= i < |events| ==> events[i] == Fire(Situation(true, NoDevice))
    ensures Switches(m, first, events, limit) == |events|
    decreases |events|
  {
    if events != [] {
      assert events[0] == Fire(Situation(true, NoDevice));
      SwitchesWithoutDevice(Remember(m, first), first, events[1..], limit);
    }
  }
}
