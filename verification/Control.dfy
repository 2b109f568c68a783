/**
 The Raw HID side of include/device_control.c: input events and status frames going to the
 host, and checked command frames coming from it.
 */
module Control {
  import opened Wrappers
  import opened Keyboard
  import opened Actions
  import Leds

  type Frame = seq<bv8>

  const MAGIC_C: bv8 := 0x43
  const MAGIC_P: bv8 := 0x50
  const PROTOCOL_VERSION: bv8 := 2
  const CMD_STATUS: bv8 := 0x30
  const CMD_RELEASE_ALL: bv8 := 0x31
  const REPORT_STATUS: bv8 := 0x80
  const REPORT_INPUT: bv8 := 0x81

  const PHASE_RELEASE: bv8 := 0
  const PHASE_PRESS: bv8 := 1
  const PHASE_TRIGGER: bv8 := 2

  // `frames` is every frame handed to endpoint 2 so far.
  datatype Panel = Panel(device: Device, leds: Leds.State, sequence: bv8, mask: bv16, frames: seq<Frame>) {
    ghost predicate Wf() {
      device.Wf() && leds.Wf()
    }
  }

  function PowerOnPanel(): (c: Panel)
    ensures c.Wf()
  {
    Panel(Device(POWER_ON, DEFAULT_TABLE), Leds.PowerOn(), 0, 0, [])
  }

  // ---------------------------------------------------------------- frames

  function Xor(s: seq<bv8>): bv8 {
    if s == [] then 0 else Xor(s[..|s| - 1]) ^ s[|s| - 1]
  }

  // Byte 31 is the checksum of bytes 0..30.
  function Seal(payload: seq<bv8>): (f: Frame)
    requires |payload| == PACKET_SIZE - 1
    ensures |f| == PACKET_SIZE
  {
    payload + [Xor(payload)]
  }

  function MaskLow(mask: bv16): bv8 { (mask & 0xFF) as bv8 }

  function MaskHigh(mask: bv16): bv8 { (mask >> 8) as bv8 }

  function StatusByte(mask: bv16, i: nat): bv8 {
    match i
    case 0 => MAGIC_C
    case 1 => MAGIC_P
    case 2 => PROTOCOL_VERSION
    case 3 => REPORT_STATUS
    case 4 => 1
    case 7 => 0x1F
    case 8 => 9
    case 9 => 6
    case 10 => MaskLow(mask)
    case 11 => MaskHigh(mask)
    case _ => 0
  }

  function InputByte(sequence: bv8, visible: bv8, phase: bv8, mask: bv16, i: nat): bv8 {
    match i
    case 0 => MAGIC_C
    case 1 => MAGIC_P
    case 2 => PROTOCOL_VERSION
    case 3 => REPORT_INPUT
    case 4 => sequence
    case 5 => visible
    case 6 => phase
    case 7 => MaskLow(mask)
    case 8 => MaskHigh(mask)
    case _ => 0
  }

  function StatusPayload(mask: bv16): (p: seq<bv8>)
    ensures |p| == PACKET_SIZE - 1
  {
    seq(PACKET_SIZE - 1, i requires 0 <= i => StatusByte(mask, i))
  }

  function InputPayload(sequence: bv8, visible: bv8, phase: bv8, mask: bv16): (p: seq<bv8>)
    ensures |p| == PACKET_SIZE - 1
  {
    seq(PACKET_SIZE - 1, i requires 0 <= i => InputByte(sequence, visible, phase, mask, i))
  }

  function StatusFrame(mask: bv16): (f: Frame)
    ensures |f| == PACKET_SIZE
  {
    Seal(StatusPayload(mask))
  }

  function InputFrame(sequence: bv8, visible: bv8, phase: bv8, mask: bv16): (f: Frame)
    ensures |f| == PACKET_SIZE
  {
    Seal(InputPayload(sequence, visible, phase, mask))
  }

  // The PCB's key wiring is mirrored.
  const VISIBLE_CONTROL: seq<bv8> := [2, 1, 0, 5, 4, 3, 6, 7, 8]

  function VisibleBit(visible: bv8): bv16
    requires visible < 9
  {
    match visible
    case 0 => 0x001
    case 1 => 0x002
    case 2 => 0x004
    case 3 => 0x008
    case 4 => 0x010
    case 5 => 0x020
    case 6 => 0x040
    case 7 => 0x080
    case _ => 0x100
  }

  // ---------------------------------------------------------------- the calls

  // Waiting for endpoint 2 is also a point at which a bus reset may strike.
  function SendPacket(strikes: Strikes, c: Panel, frame: Frame): (d: Panel)
    requires c.Wf()
    ensures d.Wf()
  {
    c.(device := c.device.(port := AfterWait(strikes, c.device.port)), frames := c.frames + [frame])
  }

  function SendStatus(strikes: Strikes, c: Panel): (d: Panel)
    requires c.Wf()
    ensures d.Wf()
  {
    SendPacket(strikes, c, StatusFrame(c.mask))
  }

  function SendInput(strikes: Strikes, c: Panel, visible: bv8, phase: bv8): (d: Panel)
    requires c.Wf()
    ensures d.Wf()
  {
    SendPacket(strikes, c, InputFrame(c.sequence, visible, phase, c.mask))
  }

  function Marked(mask: bv16, visible: bv8, pressed: bool): bv16
    requires visible < 9
  {
    if pressed then mask | VisibleBit(visible) else mask & !VisibleBit(visible)
  }

  function Recorded(c: Panel, visible: bv8, pressed: bool): (d: Panel)
    requires c.Wf() && visible < 9
    ensures d.Wf()
  {
    c.(mask := Marked(c.mask, visible, pressed), sequence := c.sequence + 1)
  }

  function EmitInput(strikes: Strikes, c: Panel, control: nat, pressed: bool): (d: Panel)
    requires c.Wf()
    ensures d.Wf()
  {
    if control >= CONTROL_COUNT then c
    else
      var visible := VISIBLE_CONTROL[control];
      SendInput(strikes, Recorded(c, visible, pressed), visible, if pressed then PHASE_PRESS else PHASE_RELEASE)
  }

  function EmitRotation(strikes: Strikes, c: Panel, control: nat): (d: Panel)
    requires c.Wf()
    ensures d.Wf()
  {
    if control >= CONTROL_COUNT then c
    else
      SendInput(strikes, c.(sequence := c.sequence + 1), VISIBLE_CONTROL[control], PHASE_TRIGGER)
  }

  // Magic, version and checksum.
  predicate Accepts(packet: seq<bv8>) {
    && |packet| == PACKET_SIZE
    && packet[0] == MAGIC_C && packet[1] == MAGIC_P
    && (packet[2] == 1 || packet[2] == PROTOCOL_VERSION)
    && Xor(packet[..PACKET_SIZE - 1]) == packet[PACKET_SIZE - 1]
  }

  // What the main loop does with the bytes received on endpoint 2.
  function HandleUSB(strikes: Strikes, c: Panel, packet: seq<bv8>): (d: Panel)
    requires c.Wf()
    ensures d.Wf()
  {
    if !Accepts(packet) then c
    else if 0x10 <= packet[3] <= 0x12 then c.(leds := Leds.ApplyPacket(c.leds, packet))
    else if packet[3] == CMD_SET_BINDING then c.(device := ApplyPacket(strikes, c.device, packet))
    else if packet[3] == CMD_STATUS then SendStatus(strikes, c)
    else if packet[3] == CMD_RELEASE_ALL then
      SendStatus(strikes, c.(device := c.device.(port := ReleaseAll(strikes, c.device.port)), mask := 0))
    else c
  }

  // ---------------------------------------------------------------- the same in place

  method Checksum(packet: array<bv8>) returns (sum: bv8)
    requires packet.Length == PACKET_SIZE
    ensures sum == Xor(packet[..PACKET_SIZE - 1])
  {
    sum := 0;
    var i := 0;
    while i < PACKET_SIZE - 1
      invariant 0 <= i <= PACKET_SIZE - 1
      invariant sum == Xor(packet[..i])
    {
      assert packet[..i + 1][..i] == packet[..i];
      sum := sum ^ packet[i];
      i := i + 1;
    }
  }

  method ZeroedPacket() returns (packet: array<bv8>)
    ensures fresh(packet) && packet.Length == PACKET_SIZE
    ensures forall i :: 0 <= i < PACKET_SIZE ==> packet[i] == 0
  {
    packet := new bv8[PACKET_SIZE];
    var i := 0;
    while i < PACKET_SIZE
      invariant 0 <= i <= PACKET_SIZE
      invariant forall j :: 0 <= j < i ==> packet[j] == 0
    {
      packet[i] := 0;
      i := i + 1;
    }
  }

  method BuildStatus(mask: bv16) returns (packet: array<bv8>)
    ensures fresh(packet) && packet.Length == PACKET_SIZE
    ensures forall i :: 0 <= i < PACKET_SIZE - 1 ==> packet[i] == StatusByte(mask, i)
  {
    packet := ZeroedPacket();
    packet[0], packet[1], packet[2] := MAGIC_C, MAGIC_P, PROTOCOL_VERSION;
    packet[3] := REPORT_STATUS;
    packet[4], packet[5], packet[6] := 1, 0, 0;
    packet[7] := 0x1F;
    packet[8], packet[9] := 9, 6;
    packet[10], packet[11] := MaskLow(mask), MaskHigh(mask);
  }

  method BuildInput(sequence: bv8, visible: bv8, phase: bv8, mask: bv16) returns (packet: array<bv8>)
    ensures fresh(packet) && packet.Length == PACKET_SIZE
    ensures forall i :: 0 <= i < PACKET_SIZE - 1 ==>
      packet[i] == InputByte(sequence, visible, phase, mask, i)
  {
    packet := ZeroedPacket();
    packet[0], packet[1], packet[2] := MAGIC_C, MAGIC_P, PROTOCOL_VERSION;
    packet[3], packet[4] := REPORT_INPUT, sequence;
    packet[5], packet[6] := visible, phase;
    packet[7], packet[8] := MaskLow(mask), MaskHigh(mask);
  }

  method Mark(mask: bv16, visible: bv8, pressed: bool) returns (marked: bv16)
    requires visible < 9
    ensures marked == Marked(mask, visible, pressed)
  {
    marked := mask;
    if pressed {
      marked := marked | VisibleBit(visible);
    } else {
      marked := marked & !VisibleBit(visible);
    }
  }

  class ControlPanel {
    const actions: ActionTable
    const leds: Leds.LedTable
    var sequence: bv8
    var pressedMask: bv16
    var frames: seq<Frame>

    ghost function Footprint(): set<object> {
      {this} + actions.Footprint() + leds.Footprint()
    }

    ghost function State(): Panel
      reads this, actions.Footprint(), leds.Footprint()
    {
      Panel(actions.State(), leds.Contents(), sequence, pressedMask, frames)
    }

    ghost predicate Valid()
      reads this, actions.Footprint(), leds.Footprint()
    {
      && actions.Valid() && leds.Valid()
      && this !in actions.Footprint() && this !in leds.Footprint()
      && actions.Footprint() !! leds.Footprint()
      && State().Wf()
    }

    constructor (strikes: Strikes)
      ensures Valid() && State() == PowerOnPanel() && actions.reports.strikes == strikes
      ensures fresh(Footprint())
    {
      actions := new ActionTable(strikes);
      leds := new Leds.LedTable();
      sequence := 0;
      pressedMask := 0;
      frames := [];
    }

    method Send(packet: array<bv8>)
      requires Valid() && packet.Length == PACKET_SIZE && packet !in Footprint()
      modifies packet, this`frames, actions.reports.Footprint()
      ensures Valid()
      ensures State() == SendPacket(actions.reports.strikes, old(State()), Seal(old(packet[..PACKET_SIZE - 1])))
    {
      var sum := Checksum(packet);
      packet[PACKET_SIZE - 1] := sum;
      assert packet[..] == Seal(old(packet[..PACKET_SIZE - 1]));
      actions.reports.AwaitEndpoint();
      frames := frames + [packet[..]];
    }

    method SendStatusReport()
      requires Valid()
      modifies this`frames, actions.reports.Footprint()
      ensures Valid() && State() == SendStatus(actions.reports.strikes, old(State()))
    {
      var packet := BuildStatus(pressedMask);
      assert packet[..PACKET_SIZE - 1] == StatusPayload(pressedMask);
      Send(packet);
    }

    method SendInputReport(visible: bv8, phase: bv8)
      requires Valid()
      modifies this`frames, actions.reports.Footprint()
      ensures Valid() && State() == SendInput(actions.reports.strikes, old(State()), visible, phase)
    {
      var packet := BuildInput(sequence, visible, phase, pressedMask);
      assert packet[..PACKET_SIZE - 1] == InputPayload(sequence, visible, phase, pressedMask);
      Send(packet);
    }

    method Record(visible: bv8, pressed: bool)
      requires Valid() && visible < 9
      modifies this`pressedMask, this`sequence
      ensures Valid() && State() == Recorded(old(State()), visible, pressed)
    {
      pressedMask := Mark(pressedMask, visible, pressed);
      sequence := sequence + 1;
    }

    method EmitInputEvent(control: nat, pressed: bool)
      requires Valid()
      modifies this, actions.reports.Footprint()
      ensures Valid() && State() == EmitInput(actions.reports.strikes, old(State()), control, pressed)
    {
      if control >= CONTROL_COUNT {
        return;
      }
      Record(VISIBLE_CONTROL[control], pressed);
      SendInputReport(VISIBLE_CONTROL[control], if pressed then PHASE_PRESS else PHASE_RELEASE);
    }

    method EmitRotationEvent(control: nat)
      requires Valid()
      modifies this, actions.reports.Footprint()
      ensures Valid() && State() == EmitRotation(actions.reports.strikes, old(State()), control)
    {
      if control >= CONTROL_COUNT {
        return;
      }
      sequence := sequence + 1;
      SendInputReport(VISIBLE_CONTROL[control], PHASE_TRIGGER);
    }

    method HandleOut(packet: array<bv8>)
      requires Valid() && packet !in Footprint()
      modifies Footprint()
      ensures Valid() && State() == HandleUSB(actions.reports.strikes, old(State()), packet[..])
    {
      if packet.Length != PACKET_SIZE {
        return;
      }
      var sum := Checksum(packet);
      ghost var bytes := packet[..];
      assert bytes[..PACKET_SIZE - 1] == packet[..PACKET_SIZE - 1];
      if packet[0] != MAGIC_C || packet[1] != MAGIC_P ||
         (packet[2] != 1 && packet[2] != PROTOCOL_VERSION) || sum != packet[PACKET_SIZE - 1] {
        return;
      }
      Dispatch(packet);
    }

    method Dispatch(packet: array<bv8>)
      requires Valid() && packet !in Footprint() && Accepts(packet[..])
      modifies Footprint()
      ensures Valid() && State() == HandleUSB(actions.reports.strikes, old(State()), packet[..])
    {
      if 0x10 <= packet[3] <= 0x12 {
        leds.Apply(packet[..]);
      } else if packet[3] == CMD_SET_BINDING {
        actions.Apply(packet[..]);
      } else if packet[3] == CMD_STATUS {
        SendStatusReport();
      } else if packet[3] == CMD_RELEASE_ALL {
        actions.reports.ReleaseEverything();
        pressedMask := 0;
        SendStatusReport();
      }
    }
  }
}
