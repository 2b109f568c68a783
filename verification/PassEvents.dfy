/**
 What the passes of macropad_test.c do to the keyboard: exactly the presses, releases,
 triggers, packets and resets read off the pins, in order, with the waits for endpoint 2
 between them. So every law of runs of events is a law of the main loop.
 */
module PassEvents {
  import opened Keyboard
  import opened KeyboardLaws
  import opened Actions
  import opened Control
  import opened MainLoop
  import opened TapLaws
  import Held = HeldKeys

  // ---------------------------------------------------------------- the events of a pass

  // A press is reported to endpoint 2 before the control acts, a release after it.
  function PinEvents(last: bool, s: Sample, control: nat): seq<Held.Event> {
    if last && !s.first && !s.confirm then [Held.Wait] + [Held.Pressed(control)]
    else if !last && s.first && s.confirm then [Held.Released(control)] + [Held.Wait]
    else []
  }

  // Keys i to n-1 are controls i to n-1.
  function KeyEvents(last: seq<bool>, r: Reads, i: nat, n: nat): seq<Held.Event>
    requires |last| == |r.pins| == PINS && i <= n <= 6
    decreases n - i
  {
    if i == n then [] else PinEvents(last[i], r.pins[i], i) + KeyEvents(last, r, i + 1, n)
  }

  function EncoderEvents(last: bool, r: Reads): seq<Held.Event> {
    if last && !r.encoderA then [Held.Triggered(if r.encoderB then 8 else 6)] + [Held.Wait] else []
  }

  // A binding packet, a status request and a release-all request; LED packets are no event.
  function PacketEvents(packet: seq<bv8>): seq<Held.Event> {
    if !Accepts(packet) then []
    else if packet[3] == 0x20 then [Held.Packet(packet)]
    else if packet[3] == 0x30 then [Held.Wait]
    else if packet[3] == 0x31 then [Held.Clear] + [Held.Wait]
    else []
  }

  function ResetEvents(reset: bool): seq<Held.Event> {
    if reset then [Held.Reset] else []
  }

  // Six keys, encoder, push switch (control 7), packet, delay.
  function EventsOf(last: seq<bool>, encoderLast: bool, r: Reads): seq<Held.Event>
    requires |last| == |r.pins| == PINS
  {
    KeyEvents(last, r, 0, 6) + EncoderEvents(encoderLast, r) + PinEvents(last[6], r.pins[6], 7)
    + PacketEvents(r.packet) + ResetEvents(r.reset)
  }

  function Finals(r: Reads): (f: seq<bool>)
    requires |r.pins| == PINS
    ensures |f| == PINS
  {
    seq(PINS, i requires 0 <= i < PINS => r.pins[i].final)
  }

  function AllEvents(last: seq<bool>, encoderLast: bool, history: seq<Reads>): seq<Held.Event>
    requires |last| == PINS && forall r :: r in history ==> r.Wf()
    decreases history
  {
    if history == [] then []
    else
      var r := history[0];
      assert r.Wf();
      EventsOf(last, encoderLast, r) + AllEvents(Finals(r), r.encoderA, history[1..])
  }

  ghost predicate AllLegal(events: seq<Held.Event>) {
    forall e :: e in events ==> Held.Legal(e)
  }

  // ---------------------------------------------------------------- runs

  // Through these events a device d becomes e, whatever controls are down.
  ghost predicate Leads(strikes: Strikes, d: Device, events: seq<Held.Event>, e: Device) {
    && d.Wf() && AllLegal(events)
    && forall down :: Held.Run(strikes, Held.World(d, down), events).device == e
  }

  lemma {:induction false} RunAppend(strikes: Strikes, w: Held.World, a: seq<Held.Event>, b: seq<Held.Event>)
    requires w.device.Wf() && AllLegal(a) && AllLegal(b)
    ensures AllLegal(a + b)
    ensures Held.Run(strikes, w, a + b) == Held.Run(strikes, Held.Run(strikes, w, a), b)
    decreases a
  {
    if a == [] {
      assert a + b == b;
    } else {
      assert (a + b)[1..] == a[1..] + b;
      assert forall e :: e in a + b ==> e in a || e in b;
      RunAppend(strikes, Held.Step(strikes, w, a[0]), a[1..], b);
    }
  }

  lemma LeadsOn(strikes: Strikes, d: Device, a: seq<Held.Event>, e: Device, b: seq<Held.Event>, f: Device)
    requires Leads(strikes, d, a, e) && Leads(strikes, e, b, f)
    ensures Leads(strikes, d, a + b, f)
  {
    forall down ensures Held.Run(strikes, Held.World(d, down), a + b).device == f {
      var w := Held.Run(strikes, Held.World(d, down), a);
      RunAppend(strikes, Held.World(d, down), a, b);
      assert w == Held.World(e, w.down);
    }
    RunAppend(strikes, Held.World(d, {}), a, b);
  }

  lemma NothingHappens(strikes: Strikes, d: Device)
    requires d.Wf()
    ensures Leads(strikes, d, [], d)
  {
  }

  lemma OneEvent(strikes: Strikes, d: Device, e: Held.Event)
    requires d.Wf() && Held.Legal(e)
    ensures Leads(strikes, d, [e], Held.Step(strikes, Held.World(d, {}), e).device)
  {
    forall down ensures Held.Run(strikes, Held.World(d, down), [e]).device
                     == Held.Step(strikes, Held.World(d, {}), e).device {
      assert [e][1..] == [];
    }
  }

  // ---------------------------------------------------------------- one input

  lemma EmitWaits(strikes: Strikes, c: Panel, control: nat, on: bool)
    requires c.Wf() && control < 9
    ensures Leads(strikes, c.device, [Held.Wait], EmitInput(strikes, c, control, on).device)
  {
    OneEvent(strikes, c.device, Held.Wait);
  }

  lemma PressLeads(strikes: Strikes, c: Panel, control: nat, e: Panel)
    requires c.Wf() && control < 9 && e == EmitInput(strikes, c, control, true)
    ensures Leads(strikes, c.device, [Held.Wait] + [Held.Pressed(control)], PressControl(strikes, e.device, control))
  {
    EmitWaits(strikes, c, control, true);
    OneEvent(strikes, e.device, Held.Pressed(control));
    LeadsOn(strikes, c.device, [Held.Wait], e.device, [Held.Pressed(control)],
            PressControl(strikes, e.device, control));
  }

  lemma ReleaseLeads(strikes: Strikes, c: Panel, control: nat, e: Panel, f: Panel)
    requires c.Wf() && control < 9 && e == c.(device := ReleaseControl(strikes, c.device, control))
    requires f == EmitInput(strikes, e, control, false)
    ensures Leads(strikes, c.device, [Held.Released(control)] + [Held.Wait], f.device)
  {
    OneEvent(strikes, c.device, Held.Released(control));
    EmitWaits(strikes, e, control, false);
    LeadsOn(strikes, c.device, [Held.Released(control)], e.device, [Held.Wait], f.device);
  }

  lemma PinLeads(strikes: Strikes, l: Loop, i: nat, s: Sample, control: nat)
    requires l.Wf() && i < PINS && control == (if i < 6 then i else 7)
    ensures Leads(strikes, l.panel.device, PinEvents(l.last[i], s, control), HandlePin(strikes, l, i, s).panel.device)
    ensures HandlePin(strikes, l, i, s).last == l.last[i := s.final]
    ensures HandlePin(strikes, l, i, s).encoderLast == l.encoderLast
  {
    PinsAreWired(i);
    EdgeLeads(strikes, l.panel, l.last[i], s, control);
    PinIsEdge(strikes, l, i, s, control);
  }

  lemma PinsAreWired(i: nat)
    requires i < PINS
    ensures WIRED[i] == if i < 6 then i else 7
  {
  }

  lemma PinIsEdge(strikes: Strikes, l: Loop, i: nat, s: Sample, control: nat)
    requires l.Wf() && i < PINS && control == WIRED[i]
    ensures HandlePin(strikes, l, i, s) ==
      l.(panel := HandleEdge(strikes, l.panel, EdgeOf(l.last[i], s), control), last := l.last[i := s.final])
  {
  }

  lemma EdgeLeads(strikes: Strikes, c: Panel, last: bool, s: Sample, control: nat)
    requires c.Wf() && control < 9
    ensures Leads(strikes, c.device, PinEvents(last, s, control),
                  HandleEdge(strikes, c, EdgeOf(last, s), control).device)
  {
    match EdgeOf(last, s)
    case None => NothingHappens(strikes, c.device);
    case Press => PressLeads(strikes, c, control, EmitInput(strikes, c, control, true));
    case Release =>
      var e := c.(device := ReleaseControl(strikes, c.device, control));
      ReleaseLeads(strikes, c, control, e, EmitInput(strikes, e, control, false));
  }

  // Keys from i on are still to be read.
  ghost predicate ReadUpTo(last: seq<bool>, now: seq<bool>, r: Reads, i: nat) {
    && |last| == |now| == |r.pins| == PINS
    && forall j :: 0 <= j < PINS ==> now[j] == if j < i then r.pins[j].final else last[j]
  }

  lemma {:induction false} KeysLead(strikes: Strikes, l: Loop, r: Reads, last: seq<bool>, i: nat)
    requires l.Wf() && r.Wf() && i <= 6 && ReadUpTo(last, l.last, r, i)
    ensures var m := HandlePins(strikes, l, r, i, 6);
            Leads(strikes, l.panel.device, KeyEvents(last, r, i, 6), m.panel.device)
            && ReadUpTo(last, m.last, r, 6) && m.encoderLast == l.encoderLast
    decreases 6 - i
  {
    if i == 6 {
      NothingHappens(strikes, l.panel.device);
    } else {
      var m := HandlePin(strikes, l, i, r.pins[i]);
      PinLeads(strikes, l, i, r.pins[i], i);
      KeysLead(strikes, m, r, last, i + 1);
      LeadsOn(strikes, l.panel.device, PinEvents(last[i], r.pins[i], i), m.panel.device,
              KeyEvents(last, r, i + 1, 6), HandlePins(strikes, m, r, i + 1, 6).panel.device);
    }
  }

  lemma DetentLeads(strikes: Strikes, c: Panel, control: nat)
    requires c.Wf() && control < 9
    ensures Leads(strikes, c.device, [Held.Triggered(control)] + [Held.Wait], Detent(strikes, c, control).device)
  {
    var e := c.(device := TriggerControl(strikes, c.device, control));
    OneEvent(strikes, c.device, Held.Triggered(control));
    OneEvent(strikes, e.device, Held.Wait);
    LeadsOn(strikes, c.device, [Held.Triggered(control)], e.device, [Held.Wait], Detent(strikes, c, control).device);
  }

  lemma EncoderLeads(strikes: Strikes, l: Loop, r: Reads)
    requires l.Wf()
    ensures var m := HandleEncoder(strikes, l, r);
            Leads(strikes, l.panel.device, EncoderEvents(l.encoderLast, r), m.panel.device)
            && m.last == l.last && m.encoderLast == r.encoderA
  {
    if l.encoderLast && !r.encoderA {
      DetentLeads(strikes, l.panel, if r.encoderB then 8 else 6);
    } else {
      NothingHappens(strikes, l.panel.device);
    }
  }

  lemma PacketLeads(strikes: Strikes, c: Panel, packet: seq<bv8>)
    requires c.Wf()
    ensures Leads(strikes, c.device, PacketEvents(packet), HandleUSB(strikes, c, packet).device)
  {
    if !Accepts(packet) {
      NothingHappens(strikes, c.device);
    } else if packet[3] == 0x20 {
      OneEvent(strikes, c.device, Held.Packet(packet));
    } else if packet[3] == 0x30 {
      OneEvent(strikes, c.device, Held.Wait);
    } else if packet[3] == 0x31 {
      ClearLeads(strikes, c, packet);
    } else {
      NothingHappens(strikes, c.device);
    }
  }

  lemma ClearLeads(strikes: Strikes, c: Panel, packet: seq<bv8>)
    requires c.Wf() && Accepts(packet) && packet[3] == 0x31
    ensures Leads(strikes, c.device, [Held.Clear] + [Held.Wait], HandleUSB(strikes, c, packet).device)
  {
    var e := c.device.(port := ReleaseAll(strikes, c.device.port));
    OneEvent(strikes, c.device, Held.Clear);
    OneEvent(strikes, e, Held.Wait);
    LeadsOn(strikes, c.device, [Held.Clear], e, [Held.Wait], HandleUSB(strikes, c, packet).device);
  }

  lemma DelayLeads(strikes: Strikes, l: Loop, reset: bool)
    requires l.Wf()
    ensures var m := HandleDelay(HandleTick(l), reset);
            Leads(strikes, l.panel.device, ResetEvents(reset), m.panel.device)
            && m.last == l.last && m.encoderLast == l.encoderLast
  {
    if reset {
      OneEvent(strikes, l.panel.device, Held.Reset);
    } else {
      NothingHappens(strikes, l.panel.device);
    }
  }

  // ---------------------------------------------------------------- passes

  lemma InputsLead(strikes: Strikes, l: Loop, r: Reads)
    requires l.Wf() && r.Wf()
    ensures var m := HandleInputs(strikes, l, r);
            Leads(strikes, l.panel.device,
                  KeyEvents(l.last, r, 0, 6) + EncoderEvents(l.encoderLast, r) + PinEvents(l.last[6], r.pins[6], 7),
                  m.panel.device)
            && m.last == Finals(r) && m.encoderLast == r.encoderA
  {
    var keys := HandlePins(strikes, l, r, 0, 6);
    var turned := HandleEncoder(strikes, keys, r);
    KeysLead(strikes, l, r, l.last, 0);
    EncoderLeads(strikes, keys, r);
    PinLeads(strikes, turned, 6, r.pins[6], 7);
    LeadsOn(strikes, l.panel.device, KeyEvents(l.last, r, 0, 6), keys.panel.device,
            EncoderEvents(l.encoderLast, r), turned.panel.device);
    LeadsOn(strikes, l.panel.device, KeyEvents(l.last, r, 0, 6) + EncoderEvents(l.encoderLast, r),
            turned.panel.device, PinEvents(l.last[6], r.pins[6], 7), HandleInputs(strikes, l, r).panel.device);
    AllRead(l.last, turned.last, r);
  }

  lemma AllRead(last: seq<bool>, now: seq<bool>, r: Reads)
    requires ReadUpTo(last, now, r, 6)
    ensures now[6 := r.pins[6].final] == Finals(r)
  {
  }

  lemma PassLeads(strikes: Strikes, l: Loop, r: Reads)
    requires l.Wf() && r.Wf()
    ensures var m := Pass(strikes, l, r);
            Leads(strikes, l.panel.device, EventsOf(l.last, l.encoderLast, r), m.panel.device)
            && m.last == Finals(r) && m.encoderLast == r.encoderA
  {
    var inputs := HandleInputs(strikes, l, r);
    var received := HandlePacket(strikes, inputs, r.packet);
    var before := KeyEvents(l.last, r, 0, 6) + EncoderEvents(l.encoderLast, r) + PinEvents(l.last[6], r.pins[6], 7);
    InputsLead(strikes, l, r);
    PacketLeads(strikes, inputs.panel, r.packet);
    DelayLeads(strikes, received, r.reset);
    LeadsOn(strikes, l.panel.device, before, inputs.panel.device, PacketEvents(r.packet), received.panel.device);
    LeadsOn(strikes, l.panel.device, before + PacketEvents(r.packet), received.panel.device,
            ResetEvents(r.reset), Pass(strikes, l, r).panel.device);
  }

  // Over every run of passes, settled or not, with any packets and resets, the device is
  // the one these events lead to.
  lemma {:induction false} PassesRunTheirEvents(strikes: Strikes, l: Loop, history: seq<Reads>)
    requires l.Wf() && forall r :: r in history ==> r.Wf()
    ensures Leads(strikes, l.panel.device, AllEvents(l.last, l.encoderLast, history),
                  Passes(strikes, l, history).panel.device)
    decreases history
  {
    if history == [] {
      NothingHappens(strikes, l.panel.device);
    } else {
      var r, m := history[0], Pass(strikes, l, history[0]);
      PassLeads(strikes, l, r);
      PassesRunTheirEvents(strikes, m, history[1..]);
      LeadsOn(strikes, l.panel.device, EventsOf(l.last, l.encoderLast, r), m.panel.device,
              AllEvents(Finals(r), r.encoderA, history[1..]), Passes(strikes, l, history).panel.device);
    }
  }

  // From boot: whatever the report holds belongs to a control that was pressed last and is
  // bound as a hold now, and the host agrees with the device, even when pins bounce.
  lemma HostFollowsEveryPass(strikes: Strikes, levels: seq<bool>, encoderA: bool, history: seq<Reads>)
    requires |levels| == PINS && forall r :: r in history ==> r.Wf()
    ensures var p, events := Passes(strikes, Boot(levels, encoderA), history).panel.device,
                             AllEvents(levels, encoderA, history);
            AllLegal(events) && HostAgrees(p.port)
            && Held.AllHeld(p.port.kbd, p.table, Held.Run(strikes, Held.START, events).down)
  {
    var events := AllEvents(levels, encoderA, history);
    PassesRunTheirEvents(strikes, Boot(levels, encoderA), history);
    assert Held.START == Held.World(Boot(levels, encoderA).panel.device, {});
    Held.NoStuckKeys(strikes, events);
    Held.HostFollowsDevice(strikes, events);
  }

  // ---------------------------------------------------------------- one input at a time

  function ControlOf(pin: nat): nat { if pin < 6 then pin else 7 }

  // In this pass no key or push switch but this one acts (PINS: none does), nor does
  // anything that comes with the flags off.
  ghost predicate OnlyActs(last: seq<bool>, encoderLast: bool, r: Reads, pin: nat, encoder: bool)
    requires |last| == |r.pins| == PINS
  {
    && (forall i :: 0 <= i < PINS && i != pin ==> PinEvents(last[i], r.pins[i], ControlOf(i)) == [])
    && (!encoder ==> EncoderEvents(encoderLast, r) == [])
    && PacketEvents(r.packet) == [] && !r.reset
  }

  lemma {:induction false} OnlyThatKey(last: seq<bool>, encoderLast: bool, r: Reads, pin: nat, encoder: bool, i: nat)
    requires |last| == |r.pins| == PINS && OnlyActs(last, encoderLast, r, pin, encoder) && i <= 6
    ensures KeyEvents(last, r, i, 6) == if i <= pin < 6 then PinEvents(last[pin], r.pins[pin], pin) else []
    decreases 6 - i
  {
    if i < 6 {
      assert i != pin ==> PinEvents(last[i], r.pins[i], ControlOf(i)) == [];
      OnlyThatKey(last, encoderLast, r, pin, encoder, i + 1);
    }
  }

  lemma OnlyPinEvents(last: seq<bool>, encoderLast: bool, r: Reads, pin: nat)
    requires |last| == |r.pins| == PINS && pin < PINS && OnlyActs(last, encoderLast, r, pin, false)
    ensures EventsOf(last, encoderLast, r) == PinEvents(last[pin], r.pins[pin], ControlOf(pin))
  {
    OnlyThatKey(last, encoderLast, r, pin, false, 0);
    assert pin != 6 ==> PinEvents(last[6], r.pins[6], ControlOf(6)) == [];
  }

  lemma OnlyEncoderEvents(last: seq<bool>, encoderLast: bool, r: Reads)
    requires |last| == |r.pins| == PINS && OnlyActs(last, encoderLast, r, PINS, true)
    ensures EventsOf(last, encoderLast, r) == EncoderEvents(encoderLast, r)
  {
    OnlyThatKey(last, encoderLast, r, PINS, true, 0);
    assert PinEvents(last[6], r.pins[6], ControlOf(6)) == [];
  }

  lemma TwoEvents(strikes: Strikes, d: Device, a: Held.Event, b: Held.Event, e: Device)
    requires Leads(strikes, d, [a] + [b], e) && Held.Legal(a) && Held.Legal(b)
    ensures e == Held.Step(strikes, Held.Step(strikes, Held.World(d, {}), a), b).device
  {
    var w := Held.Step(strikes, Held.World(d, {}), a);
    assert ([a] + [b])[1..] == [b];
    assert [b][1..] == [];
    assert Held.Run(strikes, w, [b]) == Held.Step(strikes, w, b);
    assert e == Held.Run(strikes, Held.World(d, {}), [a] + [b]).device;
  }

  // The pin was last seen high and now reads low twice.
  predicate Falls(last: bool, s: Sample) { last && !s.first && !s.confirm }

  predicate Rises(last: bool, s: Sample) { !last && s.first && s.confirm }

  // A debounced press runs the control's binding, after the wait for its frame.
  lemma PressRunsItsBinding(strikes: Strikes, l: Loop, r: Reads, pin: nat)
    requires l.Wf() && r.Wf() && pin < PINS && OnlyActs(l.last, l.encoderLast, r, pin, false)
    requires Falls(l.last[pin], r.pins[pin])
    ensures var d := l.panel.device;
            Pass(strikes, l, r).panel.device ==
            PressControl(strikes, d.(port := AfterWait(strikes, d.port)), ControlOf(pin))
  {
    PassLeads(strikes, l, r);
    OnlyPinEvents(l.last, l.encoderLast, r, pin);
    PressedLast(strikes, l.panel.device, ControlOf(pin), Pass(strikes, l, r).panel.device);
  }

  lemma PressedLast(strikes: Strikes, d: Device, control: nat, e: Device)
    requires Leads(strikes, d, [Held.Wait] + [Held.Pressed(control)], e)
    ensures e == PressControl(strikes, d.(port := AfterWait(strikes, d.port)), control)
  {
    TwoEvents(strikes, d, Held.Wait, Held.Pressed(control), e);
  }

  // A debounced release releases it, before that wait.
  lemma ReleaseEndsItsHold(strikes: Strikes, l: Loop, r: Reads, pin: nat)
    requires l.Wf() && r.Wf() && pin < PINS && OnlyActs(l.last, l.encoderLast, r, pin, false)
    requires Rises(l.last[pin], r.pins[pin])
    ensures var d := ReleaseControl(strikes, l.panel.device, ControlOf(pin));
            Pass(strikes, l, r).panel.device == d.(port := AfterWait(strikes, d.port))
  {
    PassLeads(strikes, l, r);
    OnlyPinEvents(l.last, l.encoderLast, r, pin);
    WaitedLast(strikes, l.panel.device, Held.Released(ControlOf(pin)), Pass(strikes, l, r).panel.device);
  }

  lemma WaitedLast(strikes: Strikes, d: Device, first: Held.Event, e: Device)
    requires Held.Legal(first) && Leads(strikes, d, [first] + [Held.Wait], e)
    ensures var m := Held.Step(strikes, Held.World(d, {}), first).device;
            e == m.(port := AfterWait(strikes, m.port))
  {
    TwoEvents(strikes, d, first, Held.Wait, e);
  }

  // A falling edge of A triggers control 8 if B is high and 6 if not.
  lemma TurnRunsItsBinding(strikes: Strikes, l: Loop, r: Reads)
    requires l.Wf() && r.Wf() && OnlyActs(l.last, l.encoderLast, r, PINS, true) && l.encoderLast && !r.encoderA
    ensures var d := TriggerControl(strikes, l.panel.device, if r.encoderB then 8 else 6);
            Pass(strikes, l, r).panel.device == d.(port := AfterWait(strikes, d.port))
  {
    PassLeads(strikes, l, r);
    OnlyEncoderEvents(l.last, l.encoderLast, r);
    TurnedLast(strikes, l.panel.device, if r.encoderB then 8 else 6, Pass(strikes, l, r).panel.device);
  }

  lemma TurnedLast(strikes: Strikes, d: Device, control: nat, e: Device)
    requires Leads(strikes, d, [Held.Triggered(control)] + [Held.Wait], e)
    ensures var m := TriggerControl(strikes, d, control);
            e == m.(port := AfterWait(strikes, m.port))
  {
    WaitedLast(strikes, d, Held.Triggered(control), e);
  }

  // So a press of a control bound as a hold, its key not held and with room for it, leaves
  // exactly that key and its modifiers added, here and at the host, unless a reset strikes
  // in the wait of its send. (One in the wait before only empties the report it is added to.)
  lemma HoldPressArrives(strikes: Strikes, l: Loop, r: Reads, d: Device, e: Device, pin: nat, b: Binding,
                         before: Report)
    returns (s: nat, pressed: Report)
    requires l.Wf() && r.Wf() && pin < PINS && OnlyActs(l.last, l.encoderLast, r, pin, false)
    requires Falls(l.last[pin], r.pins[pin]) && d == l.panel.device && e == Pass(strikes, l, r).panel.device
    requires HoldReady(d, ControlOf(pin), b, AfterWait(strikes, d.port), before)
    ensures Added(before, pressed, b.modifier[0], b.usage[0], s)
    ensures HasArrived(e.port, if strikes(d.port.waits + 1) then Blank(KEYBOARD_ID) else pressed)
  {
    PressRunsItsBinding(strikes, l, r, pin);
    s, pressed := WaitThenHold(strikes, d, ControlOf(pin), b, before, e);
  }

  // The control is bound as a hold of a key that the report does not hold, with room for it.
  ghost predicate HoldReady(d: Device, control: nat, b: Binding, w: Port, before: Report) {
    && d.Wf() && BoundAsHold(d, control) && b == d.table[control] && b.usage[0] != 0
    && w.Wf() && before == w.kbd && !InSlots(before, b.usage[0]) && InSlots(before, 0)
  }

  // The keyboard report is this one, here and at the host.
  ghost predicate HasArrived(p: Port, k: Report) {
    p.kbd == k && HostReport(p.sent, KEYBOARD_ID) == k
  }

  lemma WaitThenHold(strikes: Strikes, d: Device, control: nat, b: Binding, before: Report, e: Device)
    returns (s: nat, pressed: Report)
    requires d.Wf() && HoldReady(d, control, b, AfterWait(strikes, d.port), before)
    requires e == PressControl(strikes, d.(port := AfterWait(strikes, d.port)), control)
    ensures Added(before, pressed, b.modifier[0], b.usage[0], s)
    ensures HasArrived(e.port, if strikes(d.port.waits + 1) then Blank(KEYBOARD_ID) else pressed)
  {
    var w := d.(port := AfterWait(strikes, d.port));
    s, pressed := HoldShowsItsKey(strikes, w, control);
    ShownHasArrived(w.port, pressed);
  }

  lemma ShownHasArrived(p: Port, k: Report)
    requires |k| == REPORT_SIZE && k[0] == KEYBOARD_ID
    ensures HasArrived(Shown(p, k), k) && HasArrived(Struck(p, KEYBOARD_ID), Blank(KEYBOARD_ID))
  {
    LastReport(p.sent, k);
    LastReport([], Blank(KEYBOARD_ID));
    assert [] + [Blank(KEYBOARD_ID)] == [Blank(KEYBOARD_ID)];
  }

  lemma LastReport(sent: seq<Report>, k: Report)
    requires |k| == REPORT_SIZE && k[0] == KEYBOARD_ID
    ensures HostReport(sent + [k], KEYBOARD_ID) == k
  {
  }

  // ---------------------------------------------------------------- power-on shortcuts

  // The key each control types until a host binds it otherwise.
  function DefaultKey(control: nat): (bv8, bv8) {
    match control
    case 0 => (0x0A, 0x2F)
    case 1 => (0x0C, 0x11)
    case 2 => (0x0A, 0x30)
    case 3 => (0x03, 0x07)
    case 4 => (0x08, 0x11)
    case 5 => (0x03, 0x0A)
    case 6 => (0x00, 0x71)
    case 7 => (0x00, 0x72)
    case _ => (0x00, 0x73)
  }

  // The first input after power-on types its shortcut: the host gets that key with its
  // modifiers, and then an empty report.
  lemma FirstPressTypes(strikes: Strikes, levels: seq<bool>, encoderA: bool, r: Reads, pin: nat)
    requires |levels| == PINS && r.Wf() && pin < PINS && OnlyActs(levels, encoderA, r, pin, false)
    requires Falls(levels[pin], r.pins[pin]) && Calm(strikes, 0, 3)
    ensures var p, key := Pass(strikes, Boot(levels, encoderA), r).panel.device.port, DefaultKey(ControlOf(pin));
            p.sent == KeyAlone(key.0, key.1) && p.kbd == Blank(KEYBOARD_ID)
  {
    CalmSplits(strikes, 0, 1, 2);
    CalmAt(strikes, 0, 1, 0);
    var d := Device(POWER_ON.(waits := 1), DEFAULT_TABLE);
    FirstWait(strikes);
    PressRunsItsBinding(strikes, Boot(levels, encoderA), r, pin);
    DefaultTypes(strikes, d, ControlOf(pin));
    DefaultIsNoHold(strikes, d, ControlOf(pin));
  }

  lemma FirstWait(strikes: Strikes)
    requires !strikes(0)
    ensures AfterWait(strikes, POWER_ON) == POWER_ON.(waits := 1)
  {
  }

  lemma FirstTurnTypes(strikes: Strikes, levels: seq<bool>, r: Reads)
    requires |levels| == PINS && r.Wf() && OnlyActs(levels, true, r, PINS, true) && !r.encoderA && Calm(strikes, 0, 3)
    ensures var p, key := Pass(strikes, Boot(levels, true), r).panel.device.port,
                          DefaultKey(if r.encoderB then 8 else 6);
            p.sent == KeyAlone(key.0, key.1) && p.kbd == Blank(KEYBOARD_ID)
  {
    var d := Device(POWER_ON, DEFAULT_TABLE);
    CalmSplits(strikes, 0, 2, 1);
    CalmAt(strikes, 2, 1, 0);
    TurnRunsItsBinding(strikes, Boot(levels, true), r);
    DefaultTypes(strikes, d, if r.encoderB then 8 else 6);
  }

  lemma DefaultTypes(strikes: Strikes, d: Device, control: nat)
    requires d.Wf() && d.table == DEFAULT_TABLE && d.port.kbd == Blank(KEYBOARD_ID) && d.port.sent == []
    requires control < 9 && Calm(strikes, d.port.waits, 2)
    ensures var key, p := DefaultKey(control), TriggerControl(strikes, d, control).port;
            p.sent == KeyAlone(key.0, key.1) && p.kbd == Blank(KEYBOARD_ID) && p.waits == d.port.waits + 2
  {
    var key := DefaultKey(control);
    DefaultBinding(control);
    assert KeyAlone(key.0, key.1) + [] == KeyAlone(key.0, key.1);
    assert Typed(d.table[control], 0, 1) == KeyAlone(key.0, key.1);
    KeyboardTriggerTypes(strikes, d, control, 1);
    assert [] + KeyAlone(key.0, key.1) == KeyAlone(key.0, key.1);
  }

  lemma DefaultBinding(control: nat)
    requires control < 9
    ensures var b := DEFAULT_TABLE[control];
            b.Wf() && b.kind == 1 && b.count == 1
            && b.modifier[0] == DefaultKey(control).0 && b.usage[0] == DefaultKey(control).1 != 0
  {
  }

  lemma DefaultIsNoHold(strikes: Strikes, d: Device, control: nat)
    requires d.Wf() && d.table == DEFAULT_TABLE && control < 9
    ensures PressControl(strikes, d, control) == TriggerControl(strikes, d, control)
  {
    DefaultBinding(control);
    OnlyHoldsAreHeld(strikes, d, control);
  }
}
