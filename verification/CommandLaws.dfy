/**
 What each command of include/device_control.c does, to everything it could touch: the
 reports, the host's copies, the bindings, the LEDs, the mask, the numbering and the frames.
 */
module CommandLaws {
  import opened Wrappers
  import opened Keyboard
  import opened KeyboardLaws
  import opened Actions
  import opened Control
  import opened ControlLaws
  import opened TapLaws
  import Leds

  // Nothing is pressed any more, on the device or at the host.
  ghost predicate AllEmpty(p: Port) {
    && p.kbd == Blank(KEYBOARD_ID) == HostReport(p.sent, KEYBOARD_ID)
    && p.con == Blank(CONSUMER_ID) == HostReport(p.sent, CONSUMER_ID)
  }

  lemma ReleaseAllIsEmpty(strikes: Strikes, p: Port)
    requires p.Wf()
    ensures AllEmpty(ReleaseAll(strikes, p))
  {
    ReleaseAllEmpties(strikes, p);
  }

  lemma WaitKeepsEmpty(strikes: Strikes, p: Port)
    requires p.Wf() && AllEmpty(p)
    ensures AllEmpty(AfterWait(strikes, p))
  {
  }

  lemma XorIsZero(x: bv8, y: bv8)
    ensures x ^ y == 0 <==> x == y
  {
  }

  // A packet is accepted exactly when it is 32 bytes long, starts with "CP" and version 1 or
  // 2, and the exclusive-or of all its bytes is 0.
  lemma AcceptedExactly(packet: seq<bv8>)
    ensures Accepts(packet) <==>
      |packet| == 32 && packet[0] == 0x43 && packet[1] == 0x50 && (packet[2] == 1 || packet[2] == 2) && Xor(packet) == 0
  {
    if |packet| == 32 {
      XorIsZero(Xor(packet[..31]), packet[31]);
    }
  }

  // The release-all command (0x31) releases everything, clears the mask and answers with a
  // status frame; it touches neither bindings nor LEDs nor the numbering.
  lemma ReleaseAllCommand(strikes: Strikes, c: Panel, packet: seq<bv8>)
    requires c.Wf() && Accepts(packet) && packet[3] == 0x31
    ensures var d := HandleUSB(strikes, c, packet);
            AllEmpty(d.device.port)
            && d == c.(device := c.device.(port := d.device.port), mask := 0, frames := c.frames + [StatusFrame(0)])
  {
    ReleaseAllIsEmpty(strikes, c.device.port);
    WaitKeepsEmpty(strikes, ReleaseAll(strikes, c.device.port));
  }

  // Left alone it sends two empty reports, keyboard first.
  lemma ReleaseAllCommandSends(strikes: Strikes, c: Panel, packet: seq<bv8>)
    requires c.Wf() && Accepts(packet) && packet[3] == 0x31 && Calm(strikes, c.device.port.waits, 3)
    ensures var p, q := c.device.port, HandleUSB(strikes, c, packet).device.port;
            q.sent == p.sent + [Blank(KEYBOARD_ID), Blank(CONSUMER_ID)] && q.waits == p.waits + 3
  {
    CalmAt(strikes, c.device.port.waits, 3, 0);
    CalmAt(strikes, c.device.port.waits, 3, 1);
    CalmAt(strikes, c.device.port.waits, 3, 2);
    ReleaseAllEmpties(strikes, c.device.port);
  }

  predicate InRange(packet: seq<bv8>)
    requires |packet| == PACKET_SIZE
  {
    packet[4] < 9 && packet[5] <= 4 && packet[6] <= 5
  }

  // The binding says what bytes 5 to 16 say: kind, count, and five pairs of modifiers and
  // usage.
  predicate Says(b: Binding, packet: seq<bv8>)
    requires |packet| == PACKET_SIZE
  {
    && b.kind == packet[5] && b.count == packet[6]
    && |b.modifier| == |b.usage| == 5
    && forall i :: 0 <= i < 5 ==> b.modifier[i] == packet[7 + 2 * i] && b.usage[i] == packet[8 + 2 * i]
  }

  // The binding command (0x20), its fields in range, releases everything first and then
  // replaces one binding; it touches nothing else.
  lemma BindingCommand(strikes: Strikes, c: Panel, packet: seq<bv8>) returns (b: Binding)
    requires c.Wf() && Accepts(packet) && packet[3] == 0x20 && InRange(packet)
    ensures Says(b, packet)
    ensures var d := HandleUSB(strikes, c, packet);
            AllEmpty(d.device.port)
            && d == c.(device := Device(d.device.port, c.device.table[packet[4] as nat := b]))
  {
    b := PacketBinding(packet);
    ReleaseAllIsEmpty(strikes, c.device.port);
  }

  // Out of range it does nothing at all.
  lemma BadBindingCommand(strikes: Strikes, c: Panel, packet: seq<bv8>)
    requires c.Wf() && Accepts(packet) && packet[3] == 0x20 && !InRange(packet)
    ensures HandleUSB(strikes, c, packet) == c
  {
  }

  // LED commands (0x10 to 0x12) change the LEDs only.
  lemma LedCommand(strikes: Strikes, c: Panel, packet: seq<bv8>)
    requires c.Wf() && Accepts(packet) && 0x10 <= packet[3] <= 0x12
    ensures HandleUSB(strikes, c, packet) == c.(leds := Leds.ApplyPacket(c.leds, packet))
  {
  }

  // A status request (0x30) is answered, and that is all.
  lemma StatusCommand(strikes: Strikes, c: Panel, packet: seq<bv8>)
    requires c.Wf() && Accepts(packet) && packet[3] == 0x30
    ensures HandleUSB(strikes, c, packet) ==
      c.(device := c.device.(port := AfterWait(strikes, c.device.port)), frames := c.frames + [StatusFrame(c.mask)])
  {
  }

  lemma OtherCommandsDoNothing(strikes: Strikes, c: Panel, packet: seq<bv8>)
    requires c.Wf()
    requires Accepts(packet) ==> !(0x10 <= packet[3] <= 0x12) && packet[3] !in [0x20, 0x30, 0x31]
    ensures HandleUSB(strikes, c, packet) == c
  {
  }

  // ---------------------------------------------------------------- frames, byte by byte

  lemma SealedXor(payload: seq<bv8>)
    requires |payload| == PACKET_SIZE - 1
    ensures Xor(Seal(payload)) == 0
  {
    assert Seal(payload)[..PACKET_SIZE - 1] == payload;
    XorSelf(Xor(payload));
  }

  lemma XorSelf(x: bv8)
    ensures x ^ x == 0
  {
  }

  predicate StartsFrame(f: Frame, kind: bv8) {
    |f| == 32 && f[0] == 0x43 && f[1] == 0x50 && f[2] == 2 && f[3] == kind && Xor(f) == 0
  }

  // Version 1.0.0, five capabilities, nine controls, six LEDs and the mask, low byte first.
  lemma StatusFrameSays(mask: bv16, i: nat)
    ensures var f := StatusFrame(mask);
            StartsFrame(f, 0x80)
            && f[4] == 1 && f[5] == 0 && f[6] == 0 && f[7] == 0x1F && f[8] == 9 && f[9] == 6
            && Joined(f[10], f[11]) == mask
            && (12 <= i < 31 ==> f[i] == 0)
  {
    SealedXor(StatusPayload(mask));
    StatusFrameFields(mask);
  }

  // Number, control, phase and the mask after the event.
  lemma InputFrameSays(sequence: bv8, visible: bv8, phase: bv8, mask: bv16, i: nat)
    ensures var f := InputFrame(sequence, visible, phase, mask);
            StartsFrame(f, 0x81)
            && f[4] == sequence && f[5] == visible && f[6] == phase
            && Joined(f[7], f[8]) == mask
            && (9 <= i < 31 ==> f[i] == 0)
  {
    SealedXor(InputPayload(sequence, visible, phase, mask));
    InputFrameFields(sequence, visible, phase, mask);
  }
}
