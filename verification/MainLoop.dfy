/**
 The main loop of macropad_test.c: debounced pins, the encoder, received packets and the
 LED tick, composed with everything they drive.
 */
module MainLoop {
  import opened Keyboard
  import opened Actions
  import opened Control
  import Leds

  // The three reads one pass may make of a pin: first, after the debounce delay, and the
  // one that becomes the new last level. Levels are true for high; keys are active low.
  datatype Sample = Sample(first: bool, confirm: bool, final: bool)

  datatype Edge = None | Press | Release

  function EdgeOf(last: bool, s: Sample): Edge {
    if last && !s.first && !s.confirm then Press
    else if !last && s.first && s.confirm then Release
    else None
  }

  // The pins handled like keys, by the control each one reports.
  const WIRED: seq<nat> := [0, 1, 2, 3, 4, 5, 7]
  const PINS := 7
  const ENCODER_LEFT := 6
  const ENCODER_RIGHT := 8
  const TICK_PASSES := 20

  datatype Loop = Loop(panel: Panel, last: seq<bool>, encoderLast: bool, divider: nat) {
    ghost predicate Wf() {
      panel.Wf() && |last| == PINS && divider < TICK_PASSES
    }
  }

  // Everything one pass reads from the outside, and whether a bus reset strikes in the idle
  // delay that ends it. One that strikes between two inputs finds the reports as it would
  // at the next wait, which the oracle covers.
  datatype Reads = Reads(pins: seq<Sample>, encoderA: bool, encoderB: bool, packet: seq<bv8>, reset: bool) {
    ghost predicate Wf() { |pins| == PINS }
  }

  function HandleEdge(strikes: Strikes, c: Panel, edge: Edge, control: nat): (d: Panel)
    requires c.Wf()
    ensures d.Wf()
  {
    match edge
    case None => c
    case Press =>
      var e := EmitInput(strikes, c, control, true);
      e.(device := PressControl(strikes, e.device, control))
    case Release =>
      EmitInput(strikes, c.(device := ReleaseControl(strikes, c.device, control)), control, false)
  }

  function HandlePin(strikes: Strikes, l: Loop, i: nat, s: Sample): (m: Loop)
    requires l.Wf() && i < PINS
    ensures m.Wf()
  {
    l.(panel := HandleEdge(strikes, l.panel, EdgeOf(l.last[i], s), WIRED[i]), last := l.last[i := s.final])
  }

  // Pins i, i+1, ..., n-1 in order.
  function HandlePins(strikes: Strikes, l: Loop, r: Reads, i: nat, n: nat): (m: Loop)
    requires l.Wf() && r.Wf() && i <= n <= PINS
    ensures m.Wf()
    decreases n - i
  {
    if i == n then l else HandlePins(strikes, HandlePin(strikes, l, i, r.pins[i]), r, i + 1, n)
  }

  function Detent(strikes: Strikes, c: Panel, control: nat): (d: Panel)
    requires c.Wf()
    ensures d.Wf()
  {
    EmitRotation(strikes, c.(device := TriggerControl(strikes, c.device, control)), control)
  }

  function HandleEncoder(strikes: Strikes, l: Loop, r: Reads): (m: Loop)
    requires l.Wf()
    ensures m.Wf()
  {
    l.(panel := if l.encoderLast && !r.encoderA
                then Detent(strikes, l.panel, if r.encoderB then ENCODER_RIGHT else ENCODER_LEFT)
                else l.panel,
       encoderLast := r.encoderA)
  }

  function HandleTick(l: Loop): (m: Loop)
    requires l.Wf()
    ensures m.Wf()
  {
    if l.divider + 1 >= TICK_PASSES then
      l.(panel := l.panel.(leds := Leds.Tick(l.panel.leds)), divider := 0)
    else l.(divider := l.divider + 1)
  }

  function HandlePacket(strikes: Strikes, l: Loop, packet: seq<bv8>): (m: Loop)
    requires l.Wf()
    ensures m.Wf()
  {
    l.(panel := HandleUSB(strikes, l.panel, packet))
  }

  function HandleDelay(l: Loop, reset: bool): (m: Loop)
    requires l.Wf()
    ensures m.Wf()
  {
    if reset then
      var d := l.panel.device;
      l.(panel := l.panel.(device := d.(port := BusReset(d.port))))
    else l
  }

  // The six keys, then the encoder's rotation, then its push switch.
  function HandleInputs(strikes: Strikes, l: Loop, r: Reads): (m: Loop)
    requires l.Wf() && r.Wf()
    ensures m.Wf()
  {
    var keys := HandlePins(strikes, l, r, 0, 6);
    HandlePin(strikes, HandleEncoder(strikes, keys, r), 6, r.pins[6])
  }

  function Pass(strikes: Strikes, l: Loop, r: Reads): (m: Loop)
    requires l.Wf() && r.Wf()
    ensures m.Wf()
  {
    HandleDelay(HandleTick(HandlePacket(strikes, HandleInputs(strikes, l, r), r.packet)), r.reset)
  }

  function Passes(strikes: Strikes, l: Loop, history: seq<Reads>): (m: Loop)
    requires l.Wf() && forall r :: r in history ==> r.Wf()
    ensures m.Wf()
    decreases history
  {
    if history == [] then l else Passes(strikes, Pass(strikes, l, history[0]), history[1..])
  }

  function Boot(levels: seq<bool>, encoderA: bool): (l: Loop)
    requires |levels| == PINS
    ensures l.Wf()
  {
    Loop(PowerOnPanel(), levels, encoderA, 0)
  }

  // ---------------------------------------------------------------- the loop in place

  class Firmware {
    const panel: ControlPanel
    const last: array<bool>
    var encoderLast: bool
    var tickDivider: nat

    ghost function Footprint(): set<object> { panel.Footprint() + {this, last} }

    ghost function State(): Loop
      reads this, last, panel.Footprint()
    {
      Loop(panel.State(), last[..], encoderLast, tickDivider)
    }

    ghost predicate Valid()
      reads this, last, panel.Footprint()
    {
      && panel.Valid() && last.Length == PINS
      && this !in panel.Footprint() && last !in panel.Footprint()
      && State().Wf()
    }

    constructor (strikes: Strikes, levels: seq<bool>, encoderA: bool)
      requires |levels| == PINS
      ensures Valid() && State() == Boot(levels, encoderA) && panel.actions.reports.strikes == strikes
      ensures fresh(Footprint())
    {
      panel := new ControlPanel(strikes);
      last := new bool[PINS](i requires 0 <= i < PINS => levels[i]);
      encoderLast := encoderA;
      tickDivider := 0;
      new;
      assert last[..] == levels;
    }

    method OnEdge(edge: Edge, control: nat)
      requires Valid()
      modifies panel.Footprint()
      ensures Valid() && panel.State() == HandleEdge(panel.actions.reports.strikes, old(panel.State()), edge, control)
    {
      match edge
      case None =>
      case Press =>
        panel.EmitInputEvent(control, true);
        panel.actions.Press(control);
      case Release =>
        panel.actions.Release(control);
        panel.EmitInputEvent(control, false);
    }

    method OnPin(i: nat, s: Sample)
      requires Valid() && i < PINS
      modifies panel.Footprint(), last
      ensures Valid() && State() == HandlePin(panel.actions.reports.strikes, old(State()), i, s)
    {
      OnEdge(EdgeOf(last[i], s), WIRED[i]);
      last[i] := s.final;
    }

    method OnEncoder(encoderA: bool, encoderB: bool)
      requires Valid()
      modifies Footprint()
      ensures Valid()
      ensures forall r: Reads :: r.encoderA == encoderA && r.encoderB == encoderB ==>
        State() == HandleEncoder(panel.actions.reports.strikes, old(State()), r)
    {
      if encoderLast && !encoderA {
        var control := if encoderB then ENCODER_RIGHT else ENCODER_LEFT;
        panel.actions.Trigger(control);
        panel.EmitRotationEvent(control);
      }
      encoderLast := encoderA;
    }

    method OnTick()
      requires Valid()
      modifies Footprint()
      ensures Valid() && State() == HandleTick(old(State()))
    {
      tickDivider := tickDivider + 1;
      if tickDivider >= TICK_PASSES {
        tickDivider := 0;
        panel.leds.Tick20ms();
      }
    }

    method OnDelay(reset: bool)
      requires Valid()
      modifies panel.Footprint()
      ensures Valid() && State() == HandleDelay(old(State()), reset)
    {
      if reset {
        panel.actions.reports.HandleBusReset();
      }
    }

    method OnLeftKeys(r: Reads)
      requires Valid() && r.Wf()
      modifies panel.Footprint(), last
      ensures Valid() && State() == HandlePins(panel.actions.reports.strikes, old(State()), r, 0, 3)
    {
      OnPin(0, r.pins[0]);
      OnPin(1, r.pins[1]);
      OnPin(2, r.pins[2]);
    }

    method OnRightKeys(r: Reads)
      requires Valid() && r.Wf()
      modifies panel.Footprint(), last
      ensures Valid() && State() == HandlePins(panel.actions.reports.strikes, old(State()), r, 3, 6)
    {
      OnPin(3, r.pins[3]);
      OnPin(4, r.pins[4]);
      OnPin(5, r.pins[5]);
    }

    method OnInputs(r: Reads)
      requires Valid() && r.Wf()
      modifies Footprint()
      ensures Valid() && State() == HandleInputs(panel.actions.reports.strikes, old(State()), r)
    {
      HandlePinsSplit(panel.actions.reports.strikes, State(), r, 0, 3, 6);
      OnLeftKeys(r);
      OnRightKeys(r);
      OnEncoder(r.encoderA, r.encoderB);
      OnPin(6, r.pins[6]);
    }

    method OnePass(r: Reads, packet: array<bv8>)
      requires Valid() && r.Wf() && packet !in Footprint() && packet[..] == r.packet
      modifies Footprint()
      ensures Valid() && State() == Pass(panel.actions.reports.strikes, old(State()), r)
    {
      OnInputs(r);
      panel.HandleOut(packet);
      OnTick();
      OnDelay(r.reset);
    }
  }

  lemma {:induction false} HandlePinsSplit(strikes: Strikes, l: Loop, r: Reads, i: nat, m: nat, n: nat)
    requires l.Wf() && r.Wf() && i <= m <= n <= PINS
    ensures HandlePins(strikes, l, r, i, n) == HandlePins(strikes, HandlePins(strikes, l, r, i, m), r, m, n)
    decreases m - i
  {
    if i < m {
      HandlePinsSplit(strikes, HandlePin(strikes, l, i, r.pins[i]), r, i + 1, m, n);
    }
  }
}
