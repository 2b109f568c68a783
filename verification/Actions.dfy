/**
 The binding table of include/input_actions.c and what a control does when it is
 triggered, pressed or released.
 */
module Actions {
  import opened Wrappers
  import opened Keyboard

  const CONTROL_COUNT := 9
  const MAX_STEPS := 5
  const CMD_SET_BINDING: bv8 := 0x20

  const KEYBOARD: bv8 := 1
  const CONSUMER: bv8 := 2
  const APP_ONLY: bv8 := 3
  const HOLD_KEYBOARD: bv8 := 4

  const MOD_CTRL: bv8 := 0x01
  const MOD_SHIFT: bv8 := 0x02
  const MOD_ALT: bv8 := 0x04
  const MOD_GUI: bv8 := 0x08

  datatype Binding = Binding(kind: bv8, count: bv8, modifier: seq<bv8>, usage: seq<bv8>) {
    // Bindings only come from Init and from accepted packets, so these ranges hold.
    ghost predicate Wf() {
      |modifier| == MAX_STEPS && |usage| == MAX_STEPS && kind <= HOLD_KEYBOARD && count <= 5
    }

    // The control is bound as a hold that has a first step.
    predicate Holds() {
      kind == HOLD_KEYBOARD && count != 0
    }
  }

  datatype Device = Device(port: Port, table: seq<Binding>) {
    ghost predicate Wf() {
      port.Wf() && TableWf(table)
    }
  }

  ghost predicate TableWf(table: seq<Binding>) {
    |table| == CONTROL_COUNT && forall c :: 0 <= c < CONTROL_COUNT ==> table[c].Wf()
  }

  function Shortcut(modifier: bv8, usage: bv8): (b: Binding)
    ensures b.Wf()
  {
    Binding(KEYBOARD, 1, [modifier, 0, 0, 0, 0], [usage, 0, 0, 0, 0])
  }

  const DEFAULT_TABLE: seq<Binding> := [
    Shortcut(MOD_GUI | MOD_SHIFT, 0x2F),
    Shortcut(MOD_GUI | MOD_ALT, 0x11),
    Shortcut(MOD_GUI | MOD_SHIFT, 0x30),
    Shortcut(MOD_CTRL | MOD_SHIFT, 0x07),
    Shortcut(MOD_GUI, 0x11),
    Shortcut(MOD_CTRL | MOD_SHIFT, 0x0A),
    Shortcut(0, 0x71),
    Shortcut(0, 0x72),
    Shortcut(0, 0x73)
  ]

  // ---------------------------------------------------------------- the calls

  function Steps(b: Binding): nat {
    if b.count as nat < MAX_STEPS then b.count as nat else MAX_STEPS
  }

  // Taps steps i, i+1, ..., n-1 of a binding.
  function TapSteps(strikes: Strikes, p: Port, b: Binding, i: nat, n: nat): (q: Port)
    requires p.Wf() && b.Wf() && i <= n <= MAX_STEPS
    ensures q.Wf()
    decreases n - i
  {
    if i == n then p
    else TapSteps(strikes, Tap(strikes, p, b.modifier[i], b.usage[i]), b, i + 1, n)
  }

  function ConsumerUsage(b: Binding): bv16
    requires b.Wf()
  {
    ((b.modifier[0] as bv16) << 8) | b.usage[0] as bv16
  }

  function TriggerPort(strikes: Strikes, p: Port, b: Binding): (q: Port)
    requires p.Wf() && b.Wf()
    ensures q.Wf()
  {
    if b.kind == KEYBOARD then TapSteps(strikes, p, b, 0, Steps(b))
    else if b.kind == CONSUMER && b.count != 0 then TapUsage(strikes, p, ConsumerUsage(b))
    else p
  }

  function PressPort(strikes: Strikes, p: Port, b: Binding): (q: Port)
    requires p.Wf() && b.Wf()
    ensures q.Wf()
  {
    if b.Holds() then Press(strikes, p, b.modifier[0], b.usage[0])
    else if b.kind != APP_ONLY then TriggerPort(strikes, p, b)
    else p
  }

  function ReleasePort(strikes: Strikes, p: Port, b: Binding): (q: Port)
    requires p.Wf() && b.Wf()
    ensures q.Wf()
  {
    if b.Holds() then Release(strikes, p, b.modifier[0], b.usage[0]) else p
  }

  function TriggerControl(strikes: Strikes, d: Device, control: nat): (e: Device)
    requires d.Wf()
    ensures e.Wf()
  {
    if control >= CONTROL_COUNT then d else d.(port := TriggerPort(strikes, d.port, d.table[control]))
  }

  function PressControl(strikes: Strikes, d: Device, control: nat): (e: Device)
    requires d.Wf()
    ensures e.Wf()
  {
    if control >= CONTROL_COUNT then d else d.(port := PressPort(strikes, d.port, d.table[control]))
  }

  function ReleaseControl(strikes: Strikes, d: Device, control: nat): (e: Device)
    requires d.Wf()
    ensures e.Wf()
  {
    if control >= CONTROL_COUNT then d else d.(port := ReleasePort(strikes, d.port, d.table[control]))
  }

  predicate AcceptsBinding(packet: seq<bv8>)
    requires |packet| == PACKET_SIZE
  {
    packet[3] == CMD_SET_BINDING && packet[4] < 9 && packet[5] <= HOLD_KEYBOARD && packet[6] <= 5
  }

  function PacketBinding(packet: seq<bv8>): (b: Binding)
    requires |packet| == PACKET_SIZE && AcceptsBinding(packet)
    ensures b.Wf()
  {
    Binding(packet[5], packet[6],
            [packet[7], packet[9], packet[11], packet[13], packet[15]],
            [packet[8], packet[10], packet[12], packet[14], packet[16]])
  }

  function ApplyPacket(strikes: Strikes, d: Device, packet: seq<bv8>): (e: Device)
    requires d.Wf() && |packet| == PACKET_SIZE
    ensures e.Wf()
  {
    if AcceptsBinding(packet) then
      Device(ReleaseAll(strikes, d.port), d.table[packet[4] as nat := PacketBinding(packet)])
    else d
  }

  // ---------------------------------------------------------------- the table in place

  method Init(bindings: array<Binding>)
    requires bindings.Length == CONTROL_COUNT
    requires forall c :: 0 <= c < CONTROL_COUNT ==> |bindings[c].modifier| == |bindings[c].usage| == MAX_STEPS
    modifies bindings
    ensures bindings[..] == DEFAULT_TABLE
  {
    SetKeyboard(bindings, 0, MOD_GUI | MOD_SHIFT, 0x2F);
    SetKeyboard(bindings, 1, MOD_GUI | MOD_ALT, 0x11);
    SetKeyboard(bindings, 2, MOD_GUI | MOD_SHIFT, 0x30);
    SetKeyboard(bindings, 3, MOD_CTRL | MOD_SHIFT, 0x07);
    SetKeyboard(bindings, 4, MOD_GUI, 0x11);
    SetKeyboard(bindings, 5, MOD_CTRL | MOD_SHIFT, 0x0A);
    SetKeyboard(bindings, 6, 0, 0x71);
    SetKeyboard(bindings, 7, 0, 0x72);
    SetKeyboard(bindings, 8, 0, 0x73);
  }

  method SetKeyboard(bindings: array<Binding>, control: nat, modifier: bv8, usage: bv8)
    requires bindings.Length == CONTROL_COUNT && control < CONTROL_COUNT
    requires |bindings[control].modifier| == |bindings[control].usage| == MAX_STEPS
    modifies bindings
    ensures bindings[control] == Shortcut(modifier, usage)
    ensures forall c :: 0 <= c < CONTROL_COUNT && c != control ==> bindings[c] == old(bindings[c])
  {
    var b := bindings[control].(kind := KEYBOARD, count := 1);
    b := b.(modifier := b.modifier[0 := modifier], usage := b.usage[0 := usage]);
    var i := 1;
    while i < MAX_STEPS
      invariant 1 <= i <= MAX_STEPS
      invariant b.kind == KEYBOARD && b.count == 1
      invariant |b.modifier| == MAX_STEPS && b.modifier[0] == modifier
      invariant |b.usage| == MAX_STEPS && b.usage[0] == usage
      invariant forall j :: 1 <= j < i ==> b.modifier[j] == 0 && b.usage[j] == 0
    {
      b := b.(modifier := b.modifier[i := 0], usage := b.usage[i := 0]);
      i := i + 1;
    }
    assert b == Shortcut(modifier, usage);
    bindings[control] := b;
  }

  class ActionTable {
    const reports: Reports
    const bindings: array<Binding>

    ghost function Footprint(): set<object> { reports.Footprint() + {this, bindings} }

    ghost function State(): Device
      reads bindings, reports.Footprint()
    {
      Device(reports.State(), bindings[..])
    }

    ghost predicate Valid()
      reads bindings, reports.Footprint()
    {
      && (bindings as object) !in reports.Footprint()
      && reports.Valid() && bindings.Length == CONTROL_COUNT && State().Wf()
    }

    constructor (strikes: Strikes)
      ensures Valid() && State() == Device(POWER_ON, DEFAULT_TABLE) && reports.strikes == strikes
      ensures fresh(Footprint())
    {
      reports := new Reports(strikes);
      bindings := new Binding[CONTROL_COUNT](_ => Shortcut(0, 0));
      new;
      Init(bindings);
    }

    method TapSequence(b: Binding)
      requires Valid() && b.Wf()
      modifies reports.Footprint()
      ensures Valid() && bindings[..] == old(bindings[..])
      ensures reports.State() == TapSteps(reports.strikes, old(reports.State()), b, 0, Steps(b))
    {
      var i := 0;
      while i < b.count as nat && i < MAX_STEPS
        invariant reports.Valid() && 0 <= i <= Steps(b)
        invariant TapSteps(reports.strikes, old(reports.State()), b, 0, Steps(b)) ==
                  TapSteps(reports.strikes, reports.State(), b, i, Steps(b))
      {
        reports.TapCode(b.modifier[i], b.usage[i]);
        i := i + 1;
      }
    }

    method Trigger(control: nat)
      requires Valid()
      modifies reports.Footprint()
      ensures Valid() && State() == TriggerControl(reports.strikes, old(State()), control)
    {
      if control >= CONTROL_COUNT {
        return;
      }
      var b := bindings[control];
      if b.kind == KEYBOARD {
        TapSequence(b);
      } else if b.kind == CONSUMER && b.count != 0 {
        reports.TapConsumer(((b.modifier[0] as bv16) << 8) | b.usage[0] as bv16);
      }
    }

    method Press(control: nat)
      requires Valid()
      modifies reports.Footprint()
      ensures Valid() && State() == PressControl(reports.strikes, old(State()), control)
    {
      if control >= CONTROL_COUNT {
        return;
      }
      var b := bindings[control];
      if b.kind == HOLD_KEYBOARD && b.count != 0 {
        reports.PressCode(b.modifier[0], b.usage[0]);
        return;
      }
      if b.kind != APP_ONLY {
        Trigger(control);
      }
    }

    method Release(control: nat)
      requires Valid()
      modifies reports.Footprint()
      ensures Valid() && State() == ReleaseControl(reports.strikes, old(State()), control)
    {
      if control >= CONTROL_COUNT {
        return;
      }
      var b := bindings[control];
      if b.kind == HOLD_KEYBOARD && b.count != 0 {
        reports.ReleaseCode(b.modifier[0], b.usage[0]);
      }
    }

    method Apply(packet: seq<bv8>)
      requires Valid() && |packet| == PACKET_SIZE
      modifies bindings, reports.Footprint()
      ensures Valid() && State() == ApplyPacket(reports.strikes, old(State()), packet)
    {
      if packet[3] != CMD_SET_BINDING {
        return;
      }
      if packet[4] >= 9 || packet[5] > HOLD_KEYBOARD || packet[6] > 5 {
        return;
      }
      reports.ReleaseEverything();
      Store(packet[4] as nat, packet);
    }

    method Store(control: nat, packet: seq<bv8>)
      requires bindings.Length == CONTROL_COUNT && control < CONTROL_COUNT
      requires |packet| == PACKET_SIZE && AcceptsBinding(packet)
      requires |bindings[control].modifier| == MAX_STEPS && |bindings[control].usage| == MAX_STEPS
      modifies bindings
      ensures bindings[..] == old(bindings[..])[control := PacketBinding(packet)]
    {
      var b := bindings[control].(kind := packet[5], count := packet[6]);
      var i := 0;
      while i < MAX_STEPS
        invariant 0 <= i <= MAX_STEPS
        invariant b.kind == packet[5] && b.count == packet[6]
        invariant |b.modifier| == MAX_STEPS && |b.usage| == MAX_STEPS
        invariant forall j :: 0 <= j < i ==>
          b.modifier[j] == packet[7 + 2 * j] && b.usage[j] == packet[8 + 2 * j]
      {
        b := b.(modifier := b.modifier[i := packet[7 + 2 * i]], usage := b.usage[i := packet[8 + 2 * i]]);
        i := i + 1;
      }
      assert b == PacketBinding(packet);
      bindings[control] := b;
    }
  }
}
