/**
 Laws of the main loop of macropad_test.c: debounced events alternate, and once every pin
 reads high the keyboard, the host's copy of it and the pressed mask are all empty.
 */
module MainLoopLaws {
  import opened Keyboard
  import opened KeyboardLaws
  import opened Actions
  import opened HeldKeys
  import opened Control
  import opened ControlLaws
  import opened MainLoop

  // ---------------------------------------------------------------- one pin

  // The third read of the pin agrees with the read the pass acted on.
  predicate Settled(last: bool, s: Sample) {
    s.final == if last == s.first then s.first else s.confirm
  }

  // Exactly then does the event tell how the remembered level changed.
  lemma EventTellsLevelExactlyWhenSettled(last: bool, s: Sample)
    ensures Settled(last, s) <==>
      EdgeOf(last, s) == (if last && !s.final then Edge.Press
                          else if !last && s.final then Edge.Release
                          else Edge.None)
  {
  }

  function EventOf(edge: Edge): seq<bool> {
    match edge
    case None => []
    case Press => [true]
    case Release => [false]
  }

  // The press (true) and release (false) events of one pin over a run of passes.
  function Events(last: bool, samples: seq<Sample>): seq<bool>
    decreases samples
  {
    if samples == [] then []
    else EventOf(EdgeOf(last, samples[0])) + Events(samples[0].final, samples[1..])
  }

  ghost predicate AllSettled(last: bool, samples: seq<Sample>)
    decreases samples
  {
    samples != [] ==> Settled(last, samples[0]) && AllSettled(samples[0].final, samples[1..])
  }

  // Events alternate, and the first is a press exactly when the pin started high.
  lemma {:induction false} EventsAlternate(last: bool, samples: seq<Sample>, k: nat)
    requires AllSettled(last, samples) && k < |Events(last, samples)|
    ensures Events(last, samples)[k] == (last == (k % 2 == 0))
    decreases |samples|
  {
    var rest := Events(samples[0].final, samples[1..]);
    if EdgeOf(last, samples[0]) == Edge.None {
      EventsAlternate(samples[0].final, samples[1..], k);
    } else if k > 0 {
      EventsAlternate(samples[0].final, samples[1..], k - 1);
    }
  }

  // Without that agreement a bouncing pin can press twice in a row.
  lemma UnsettledPinPressesTwice()
    ensures var bounce, steady := Sample(false, false, true), Sample(false, false, false);
            Events(true, [bounce, steady]) == [true, true]
  {
    var bounce, steady := Sample(false, false, true), Sample(false, false, false);
    assert [bounce, steady][1..] == [steady];
    assert Events(true, [steady]) == [true];
  }

  // ---------------------------------------------------------------- the whole loop

  // The controls whose pins were last seen low.
  ghost function Low(last: seq<bool>): set<nat>
    requires |last| == PINS
  {
    set i | 0 <= i < PINS && !last[i] :: WIRED[i]
  }

  lemma LowAfter(last: seq<bool>, i: nat, level: bool)
    requires |last| == PINS && i < PINS
    ensures Low(last[i := level]) == if level then Low(last) - {WIRED[i]} else Low(last) + {WIRED[i]}
  {
    var next := last[i := level];
    assert forall j :: 0 <= j < PINS && WIRED[j] == WIRED[i] ==> j == i;
    forall c
      ensures c in Low(next) <==> (c in Low(last) && c != WIRED[i]) || (!level && c == WIRED[i])
    {
      if c in Low(last) && c != WIRED[i] {
        var j :| 0 <= j < PINS && !last[j] && WIRED[j] == c;
        assert !next[j];
      }
      if !level {
        assert !next[i];
      }
    }
  }

  ghost predicate LoopInv(l: Loop, pressed: set<nat>) {
    && l.Wf()
    && PortInv(l.panel.device.port, l.panel.device.table, Low(l.last))
    && MaskMatches(l.panel.mask, pressed)
    && pressed <= Low(l.last)
  }

  lemma PortInvMonotone(p: Port, table: seq<Binding>, down: set<nat>, more: set<nat>)
    requires TableWf(table) && PortInv(p, table, down) && down <= more
    ensures PortInv(p, table, more)
  {
    CodesMonotone(p.kbd, table, down, more);
    ModifiersMonotone(p.kbd[1], table, down, more);
  }

  // The keyboard half of a panel.
  ghost predicate PanelInv(c: Panel, down: set<nat>, pressed: set<nat>) {
    && c.Wf()
    && PortInv(c.device.port, c.device.table, down)
    && MaskMatches(c.mask, pressed)
  }

  lemma EmitKeeps(strikes: Strikes, c: Panel, down: set<nat>, pressed: set<nat>, control: nat, on: bool)
    requires PanelInv(c, down, pressed) && control < CONTROL_COUNT
    ensures PanelInv(EmitInput(strikes, c, control, on), down,
                     if on then pressed + {control} else pressed - {control})
  {
    WaitKeeps(strikes, c.device.port, c.device.table, down);
    InputEmits(strikes, c, control, on);
    EmittedKeepsMask(c, EmitInput(strikes, c, control, on), control, on, pressed);
    EmitKeepsDevice(strikes, c, control, on);
  }

  lemma EmitKeepsDevice(strikes: Strikes, c: Panel, control: nat, on: bool)
    requires c.Wf() && control < CONTROL_COUNT
    ensures EmitInput(strikes, c, control, on).device ==
      c.device.(port := AfterWait(strikes, c.device.port))
  {
  }

  lemma EdgeKeeps(strikes: Strikes, c: Panel, down: set<nat>, pressed: set<nat>, edge: Edge, control: nat)
    requires PanelInv(c, down, pressed) && control < CONTROL_COUNT
    ensures var d := HandleEdge(strikes, c, edge, control);
            match edge
            case None => PanelInv(d, down, pressed)
            case Press => PanelInv(d, down + {control}, pressed + {control})
            case Release => PanelInv(d, down - {control}, pressed - {control})
  {
    match edge
    case None =>
    case Press =>
      EmitKeeps(strikes, c, down, pressed, control, true);
      var e := EmitInput(strikes, c, control, true);
      PortInvMonotone(e.device.port, e.device.table, down, down + {control});
      PressKeeps(strikes, e.device.port, e.device.table, down + {control}, control);
    case Release =>
      ReleaseKeeps(strikes, c.device.port, c.device.table, down, control);
      var e := c.(device := ReleaseControl(strikes, c.device, control));
      EmitKeeps(strikes, e, down - {control}, pressed, control, false);
  }

  function PressedAfter(pressed: set<nat>, edge: Edge, control: nat): set<nat> {
    match edge
    case None => pressed
    case Press => pressed + {control}
    case Release => pressed - {control}
  }

  lemma PinKeeps(strikes: Strikes, l: Loop, i: nat, s: Sample, pressed: set<nat>)
    requires LoopInv(l, pressed) && i < PINS && Settled(l.last[i], s)
    ensures LoopInv(HandlePin(strikes, l, i, s), PressedAfter(pressed, EdgeOf(l.last[i], s), WIRED[i]))
  {
    EventTellsLevelExactlyWhenSettled(l.last[i], s);
    LowAfter(l.last, i, s.final);
    EdgeKeeps(strikes, l.panel, Low(l.last), pressed, EdgeOf(l.last[i], s), WIRED[i]);
    if EdgeOf(l.last[i], s) == Edge.None {
      assert l.last[i := s.final] == l.last;
    }
  }

  // Every pin's samples are settled when the pass reaches it.
  ghost predicate PassSettled(l: Loop, r: Reads)
    requires l.Wf() && r.Wf()
  {
    forall i :: 0 <= i < PINS ==> Settled(l.last[i], r.pins[i])
  }

  lemma {:induction false} PinsKeep(strikes: Strikes, l: Loop, r: Reads, i: nat, n: nat, pressed: set<nat>)
    returns (after: set<nat>)
    requires LoopInv(l, pressed) && r.Wf() && i <= n <= PINS
    requires forall j :: i <= j < PINS ==> Settled(l.last[j], r.pins[j])
    ensures LoopInv(HandlePins(strikes, l, r, i, n), after)
    ensures forall j :: n <= j < PINS ==> HandlePins(strikes, l, r, i, n).last[j] == l.last[j]
    decreases n - i
  {
    if i == n {
      after := pressed;
    } else {
      var m := HandlePin(strikes, l, i, r.pins[i]);
      PinKeeps(strikes, l, i, r.pins[i], pressed);
      after := PinsKeep(strikes, m, r, i + 1, n, PressedAfter(pressed, EdgeOf(l.last[i], r.pins[i]), WIRED[i]));
    }
  }

  lemma DetentKeeps(strikes: Strikes, c: Panel, down: set<nat>, pressed: set<nat>, control: nat)
    requires PanelInv(c, down, pressed) && control < CONTROL_COUNT
    ensures PanelInv(Detent(strikes, c, control), down, pressed)
  {
    TriggerKeeps(strikes, c.device.port, c.device.table, down, c.device.table[control]);
    var e := c.(device := TriggerControl(strikes, c.device, control));
    WaitKeeps(strikes, e.device.port, e.device.table, down);
    RotationKeepsDevice(strikes, e, control);
  }

  lemma RotationKeepsDevice(strikes: Strikes, c: Panel, control: nat)
    requires c.Wf() && control < CONTROL_COUNT
    ensures var d := EmitRotation(strikes, c, control);
            d.device == c.device.(port := AfterWait(strikes, c.device.port)) && d.mask == c.mask
  {
  }

  lemma EncoderKeeps(strikes: Strikes, l: Loop, r: Reads, pressed: set<nat>)
    requires LoopInv(l, pressed)
    ensures LoopInv(HandleEncoder(strikes, l, r), pressed)
  {
    var control := if r.encoderB then ENCODER_RIGHT else ENCODER_LEFT;
    if l.encoderLast && !r.encoderA {
      DetentKeeps(strikes, l.panel, Low(l.last), pressed, control);
      PanelInLoop(l, Detent(strikes, l.panel, control), r.encoderA, pressed);
    } else {
      PanelInLoop(l, l.panel, r.encoderA, pressed);
    }
  }

  lemma PanelInLoop(l: Loop, c: Panel, encoderA: bool, pressed: set<nat>)
    requires LoopInv(l, pressed) && PanelInv(c, Low(l.last), pressed)
    ensures LoopInv(l.(panel := c, encoderLast := encoderA), pressed)
  {
  }

  lemma PacketKeeps(strikes: Strikes, c: Panel, down: set<nat>, pressed: set<nat>, packet: seq<bv8>)
    requires PanelInv(c, down, pressed)
    ensures PanelInv(HandleUSB(strikes, c, packet), down, if ReleasesAll(packet) then {} else pressed)
  {
    OutFields(strikes, c, packet);
    PacketKeepsPort(strikes, c, down, packet);
  }

  lemma PacketKeepsPort(strikes: Strikes, c: Panel, down: set<nat>, packet: seq<bv8>)
    requires c.Wf() && PortInv(c.device.port, c.device.table, down)
    ensures var d := HandleUSB(strikes, c, packet).device; PortInv(d.port, d.table, down)
  {
    var p, table := c.device.port, c.device.table;
    if !Accepts(packet) {
    } else if ReleasesAll(packet) {
      ReleaseAllKeeps(strikes, p, table, down);
      WaitKeeps(strikes, ReleaseAll(strikes, p), table, down);
    } else if packet[3] == CMD_STATUS {
      WaitKeeps(strikes, p, table, down);
    } else if packet[3] == CMD_SET_BINDING && AcceptsBinding(packet) {
      ReleaseAllKeeps(strikes, p, ApplyPacket(strikes, c.device, packet).table, down);
    }
  }

  lemma InputsKeep(strikes: Strikes, l: Loop, r: Reads, pressed: set<nat>) returns (after: set<nat>)
    requires LoopInv(l, pressed) && r.Wf() && PassSettled(l, r)
    ensures LoopInv(HandleInputs(strikes, l, r), after)
  {
    var keys := HandlePins(strikes, l, r, 0, 6);
    var held := PinsKeep(strikes, l, r, 0, 6, pressed);
    EncoderKeeps(strikes, keys, r, held);
    var encoder := HandleEncoder(strikes, keys, r);
    PinKeeps(strikes, encoder, 6, r.pins[6], held);
    after := PressedAfter(held, EdgeOf(encoder.last[6], r.pins[6]), WIRED[6]);
  }

  lemma PassKeeps(strikes: Strikes, l: Loop, r: Reads, pressed: set<nat>) returns (after: set<nat>)
    requires LoopInv(l, pressed) && r.Wf() && PassSettled(l, r)
    ensures LoopInv(Pass(strikes, l, r), after)
  {
    after := InputsKeep(strikes, l, r, pressed);
    after := ReceiveKeeps(strikes, HandleInputs(strikes, l, r), r.packet, after);
    var received := HandlePacket(strikes, HandleInputs(strikes, l, r), r.packet);
    TickKeeps(received, after);
    DelayKeeps(HandleTick(received), r.reset, after);
  }

  lemma ReceiveKeeps(strikes: Strikes, l: Loop, packet: seq<bv8>, pressed: set<nat>)
    returns (after: set<nat>)
    requires LoopInv(l, pressed)
    ensures LoopInv(HandlePacket(strikes, l, packet), after)
  {
    PacketKeeps(strikes, l.panel, Low(l.last), pressed, packet);
    after := if ReleasesAll(packet) then {} else pressed;
  }

  lemma TickKeeps(l: Loop, pressed: set<nat>)
    requires LoopInv(l, pressed)
    ensures LoopInv(HandleTick(l), pressed)
  {
  }

  lemma DelayKeeps(l: Loop, reset: bool, pressed: set<nat>)
    requires LoopInv(l, pressed)
    ensures LoopInv(HandleDelay(l, reset), pressed)
  {
    BlankHeld(l.panel.device.table, Low(l.last));
    BusResetAgrees(l.panel.device.port);
  }

  ghost predicate RunSettled(strikes: Strikes, l: Loop, history: seq<Reads>)
    requires l.Wf() && forall r :: r in history ==> r.Wf()
    decreases history
  {
    history != [] ==>
      PassSettled(l, history[0]) && RunSettled(strikes, Pass(strikes, l, history[0]), history[1..])
  }

  lemma {:induction false} PassesKeep(strikes: Strikes, l: Loop, history: seq<Reads>, pressed: set<nat>)
    returns (after: set<nat>)
    requires LoopInv(l, pressed) && forall r :: r in history ==> r.Wf()
    requires RunSettled(strikes, l, history)
    ensures LoopInv(Passes(strikes, l, history), after)
    decreases history
  {
    if history == [] {
      after := pressed;
    } else {
      after := PassKeeps(strikes, l, history[0], pressed);
      after := PassesKeep(strikes, Pass(strikes, l, history[0]), history[1..], after);
    }
  }

  lemma BootInv(levels: seq<bool>, encoderA: bool)
    requires |levels| == PINS
    ensures LoopInv(Boot(levels, encoderA), {})
  {
    BlankHeld(DEFAULT_TABLE, Low(levels));
  }

  // From boot with any levels, over every run of settled passes with any packets and bus
  // resets: when every pin was last seen high, nothing is pressed anywhere.
  lemma AllHighMeansNothingPressed(strikes: Strikes, levels: seq<bool>, encoderA: bool, history: seq<Reads>)
    requires |levels| == PINS && forall r :: r in history ==> r.Wf()
    requires RunSettled(strikes, Boot(levels, encoderA), history)
    requires forall i :: 0 <= i < PINS ==> Passes(strikes, Boot(levels, encoderA), history).last[i]
    ensures var c := Passes(strikes, Boot(levels, encoderA), history).panel;
            c.mask == 0 && c.device.port.kbd == Blank(KEYBOARD_ID)
            && HostReport(c.device.port.sent, KEYBOARD_ID) == Blank(KEYBOARD_ID)
  {
    BootInv(levels, encoderA);
    var pressed := PassesKeep(strikes, Boot(levels, encoderA), history, {});
    var l := Passes(strikes, Boot(levels, encoderA), history);
    assert Low(l.last) == {};
    NoneHeldIsBlank(World(l.panel.device, {}));
    NoneInMask(l.panel.mask);
  }

  lemma NoneInMask(mask: bv16)
    requires MaskMatches(mask, {})
    ensures mask == 0
  {
  }

  // ---------------------------------------------------------------- rotations

  // The control each rotation frame names, in order.
  function Turns(frames: seq<Frame>): seq<bv8> {
    if frames == [] then []
    else
      var last := frames[|frames| - 1];
      Turns(frames[..|frames| - 1]) + (if IsInput(last) && last[6] == PHASE_TRIGGER then [last[5]] else [])
  }

  lemma TurnsAppend(frames: seq<Frame>, f: Frame)
    ensures Turns(frames + [f]) ==
      Turns(frames) + (if IsInput(f) && f[6] == PHASE_TRIGGER then [f[5]] else [])
  {
    assert (frames + [f])[..|frames|] == frames;
  }

  lemma InputKeepsTurns(strikes: Strikes, c: Panel, control: nat, on: bool)
    requires c.Wf() && control < CONTROL_COUNT
    ensures Turns(EmitInput(strikes, c, control, on).frames) == Turns(c.frames)
  {
    var d, visible := EmitInput(strikes, c, control, on), VISIBLE_CONTROL[control];
    var phase := if on then PHASE_PRESS else PHASE_RELEASE;
    InputEmits(strikes, c, control, on);
    InputFrameFields(c.sequence + 1, visible, phase, d.mask);
    TurnsAppend(c.frames, InputFrame(c.sequence + 1, visible, phase, d.mask));
  }

  lemma PinKeepsTurns(strikes: Strikes, l: Loop, i: nat, s: Sample)
    requires l.Wf() && i < PINS
    ensures Turns(HandlePin(strikes, l, i, s).panel.frames) == Turns(l.panel.frames)
    ensures HandlePin(strikes, l, i, s).encoderLast == l.encoderLast
  {
    var c, control := l.panel, WIRED[i];
    match EdgeOf(l.last[i], s)
    case None =>
    case Press => InputKeepsTurns(strikes, c, control, true);
    case Release =>
      InputKeepsTurns(strikes, c.(device := ReleaseControl(strikes, c.device, control)), control, false);
  }

  lemma {:induction false} PinsKeepTurns(strikes: Strikes, l: Loop, r: Reads, i: nat, n: nat)
    requires l.Wf() && r.Wf() && i <= n <= PINS
    ensures Turns(HandlePins(strikes, l, r, i, n).panel.frames) == Turns(l.panel.frames)
    ensures HandlePins(strikes, l, r, i, n).encoderLast == l.encoderLast
    decreases n - i
  {
    if i < n {
      PinKeepsTurns(strikes, l, i, r.pins[i]);
      PinsKeepTurns(strikes, HandlePin(strikes, l, i, r.pins[i]), r, i + 1, n);
    }
  }

  // What one pass should report: nothing, or one step to the right or to the left.
  function Detents(last: bool, r: Reads): seq<bv8> {
    if last && !r.encoderA then [if r.encoderB then 8 else 6] else []
  }

  lemma EncoderTurns(strikes: Strikes, l: Loop, r: Reads)
    requires l.Wf()
    ensures Turns(HandleEncoder(strikes, l, r).panel.frames) == Turns(l.panel.frames) + Detents(l.encoderLast, r)
    ensures HandleEncoder(strikes, l, r).encoderLast == r.encoderA
  {
    if l.encoderLast && !r.encoderA {
      var c, control := l.panel, if r.encoderB then ENCODER_RIGHT else ENCODER_LEFT;
      RotationFrame(strikes, c, control);
      InputFrameFields(c.sequence + 1, VISIBLE_CONTROL[control], PHASE_TRIGGER, c.mask);
      TurnsAppend(c.frames, InputFrame(c.sequence + 1, VISIBLE_CONTROL[control], PHASE_TRIGGER, c.mask));
    }
  }

  lemma RotationFrame(strikes: Strikes, c: Panel, control: nat)
    requires c.Wf() && control < CONTROL_COUNT
    ensures Detent(strikes, c, control).frames ==
      c.frames + [InputFrame(c.sequence + 1, VISIBLE_CONTROL[control], PHASE_TRIGGER, c.mask)]
  {
  }

  lemma PacketKeepsTurns(strikes: Strikes, c: Panel, packet: seq<bv8>)
    requires c.Wf()
    ensures Turns(HandleUSB(strikes, c, packet).frames) == Turns(c.frames)
  {
    var mask := if ReleasesAll(packet) then 0 else c.mask;
    OutFields(strikes, c, packet);
    StatusFrameFields(mask);
    TurnsAppend(c.frames, StatusFrame(mask));
  }

  lemma InputsTurns(strikes: Strikes, l: Loop, r: Reads)
    requires l.Wf() && r.Wf()
    ensures Turns(HandleInputs(strikes, l, r).panel.frames) == Turns(l.panel.frames) + Detents(l.encoderLast, r)
    ensures HandleInputs(strikes, l, r).encoderLast == r.encoderA
  {
    var keys := HandlePins(strikes, l, r, 0, 6);
    PinsKeepTurns(strikes, l, r, 0, 6);
    EncoderTurns(strikes, keys, r);
    PinKeepsTurns(strikes, HandleEncoder(strikes, keys, r), 6, r.pins[6]);
  }

  // After its inputs a pass sends nothing but what the packet asks for.
  lemma ClosingFrames(strikes: Strikes, l: Loop, packet: seq<bv8>, reset: bool)
    requires l.Wf()
    ensures var m := HandleDelay(HandleTick(HandlePacket(strikes, l, packet)), reset);
            m.panel.frames == HandleUSB(strikes, l.panel, packet).frames && m.encoderLast == l.encoderLast
            && m.last == l.last
  {
  }

  lemma PassTurns(strikes: Strikes, l: Loop, r: Reads)
    requires l.Wf() && r.Wf()
    ensures Turns(Pass(strikes, l, r).panel.frames) == Turns(l.panel.frames) + Detents(l.encoderLast, r)
    ensures Pass(strikes, l, r).encoderLast == r.encoderA
  {
    var inputs := HandleInputs(strikes, l, r);
    InputsTurns(strikes, l, r);
    PacketKeepsTurns(strikes, inputs.panel, r.packet);
    ClosingFrames(strikes, inputs, r.packet, r.reset);
  }

  function AllDetents(last: bool, history: seq<Reads>): seq<bv8>
    decreases history
  {
    if history == [] then [] else Detents(last, history[0]) + AllDetents(history[0].encoderA, history[1..])
  }

  // Over every run of passes the rotation frames sent are exactly the falling edges of A,
  // one each, in order, naming the right control when B was high and the left one if not.
  lemma {:induction false} TurnsFollowTheEncoder(strikes: Strikes, l: Loop, history: seq<Reads>)
    requires l.Wf() && forall r :: r in history ==> r.Wf()
    ensures Turns(Passes(strikes, l, history).panel.frames) ==
      Turns(l.panel.frames) + AllDetents(l.encoderLast, history)
    decreases history
  {
    if history != [] {
      PassTurns(strikes, l, history[0]);
      TurnsFollowTheEncoder(strikes, Pass(strikes, l, history[0]), history[1..]);
      Reassociate(Turns(l.panel.frames), Detents(l.encoderLast, history[0]),
                  AllDetents(history[0].encoderA, history[1..]));
    }
  }

  lemma Reassociate<T>(a: seq<T>, b: seq<T>, c: seq<T>)
    ensures (a + b) + c == a + (b + c)
  {
  }

  // ---------------------------------------------------------------- presses and releases

  // The control the host sees for a pin.
  function Shown(pin: nat): bv8
    requires pin < PINS
  {
    VISIBLE_CONTROL[WIRED[pin]]
  }

  lemma PinsAreShownApart(i: nat, j: nat)
    requires i < PINS && j < PINS
    ensures Shown(i) == Shown(j) <==> i == j
  {
  }

  // What a frame says of a control: pressed, released or nothing.
  function MoveOf(f: Frame, visible: bv8): seq<bool> {
    if !IsInput(f) || f[5] != visible then []
    else if f[6] == PHASE_PRESS then [true]
    else if f[6] == PHASE_RELEASE then [false]
    else []
  }

  function Moves(frames: seq<Frame>, visible: bv8): seq<bool> {
    if frames == [] then []
    else Moves(frames[..|frames| - 1], visible) + MoveOf(frames[|frames| - 1], visible)
  }

  lemma MovesAppend(frames: seq<Frame>, f: Frame, visible: bv8)
    ensures Moves(frames + [f], visible) == Moves(frames, visible) + MoveOf(f, visible)
  {
    assert (frames + [f])[..|frames|] == frames;
  }

  lemma InputMoves(strikes: Strikes, c: Panel, control: nat, on: bool, visible: bv8)
    requires c.Wf() && control < CONTROL_COUNT
    ensures Moves(EmitInput(strikes, c, control, on).frames, visible) ==
      Moves(c.frames, visible) + (if VISIBLE_CONTROL[control] == visible then [on] else [])
  {
    var d, shown := EmitInput(strikes, c, control, on), VISIBLE_CONTROL[control];
    var phase := if on then PHASE_PRESS else PHASE_RELEASE;
    InputEmits(strikes, c, control, on);
    InputFrameFields(c.sequence + 1, shown, phase, d.mask);
    MovesAppend(c.frames, InputFrame(c.sequence + 1, shown, phase, d.mask), visible);
  }

  lemma EdgeMoves(strikes: Strikes, c: Panel, edge: Edge, control: nat, visible: bv8)
    requires c.Wf() && control < CONTROL_COUNT
    ensures Moves(HandleEdge(strikes, c, edge, control).frames, visible) ==
      Moves(c.frames, visible) + (if VISIBLE_CONTROL[control] == visible then EventOf(edge) else [])
  {
    match edge
    case None =>
    case Press => InputMoves(strikes, c, control, true, visible);
    case Release =>
      InputMoves(strikes, c.(device := ReleaseControl(strikes, c.device, control)), control, false, visible);
  }

  lemma PinMoves(strikes: Strikes, l: Loop, i: nat, s: Sample, pin: nat)
    requires l.Wf() && i < PINS && pin < PINS
    ensures Moves(HandlePin(strikes, l, i, s).panel.frames, Shown(pin)) ==
      Moves(l.panel.frames, Shown(pin)) + (if i == pin then EventOf(EdgeOf(l.last[i], s)) else [])
    ensures HandlePin(strikes, l, i, s).last == l.last[i := s.final]
  {
    EdgeMoves(strikes, l.panel, EdgeOf(l.last[i], s), WIRED[i], Shown(pin));
    PinsAreShownApart(i, pin);
  }

  lemma {:induction false} PinsMove(strikes: Strikes, l: Loop, r: Reads, i: nat, n: nat, pin: nat)
    requires l.Wf() && r.Wf() && i <= n <= PINS && pin < PINS
    ensures var m, here := HandlePins(strikes, l, r, i, n), i <= pin < n;
            Moves(m.panel.frames, Shown(pin)) ==
            Moves(l.panel.frames, Shown(pin)) + (if here then EventOf(EdgeOf(l.last[pin], r.pins[pin])) else [])
            && m.last[pin] == if here then r.pins[pin].final else l.last[pin]
    decreases n - i
  {
    if i < n {
      PinMoves(strikes, l, i, r.pins[i], pin);
      PinsMove(strikes, HandlePin(strikes, l, i, r.pins[i]), r, i + 1, n, pin);
    }
  }

  lemma EncoderMoves(strikes: Strikes, l: Loop, r: Reads, visible: bv8)
    requires l.Wf()
    ensures Moves(HandleEncoder(strikes, l, r).panel.frames, visible) == Moves(l.panel.frames, visible)
    ensures HandleEncoder(strikes, l, r).last == l.last
  {
    if l.encoderLast && !r.encoderA {
      var c, control := l.panel, if r.encoderB then ENCODER_RIGHT else ENCODER_LEFT;
      RotationFrame(strikes, c, control);
      InputFrameFields(c.sequence + 1, VISIBLE_CONTROL[control], PHASE_TRIGGER, c.mask);
      MovesAppend(c.frames, InputFrame(c.sequence + 1, VISIBLE_CONTROL[control], PHASE_TRIGGER, c.mask), visible);
    }
  }

  lemma PacketKeepsMoves(strikes: Strikes, c: Panel, packet: seq<bv8>, visible: bv8)
    requires c.Wf()
    ensures Moves(HandleUSB(strikes, c, packet).frames, visible) == Moves(c.frames, visible)
  {
    var mask := if ReleasesAll(packet) then 0 else c.mask;
    OutFields(strikes, c, packet);
    StatusFrameFields(mask);
    MovesAppend(c.frames, StatusFrame(mask), visible);
  }

  lemma InputsMove(strikes: Strikes, l: Loop, r: Reads, pin: nat)
    requires l.Wf() && r.Wf() && pin < PINS
    ensures var m := HandleInputs(strikes, l, r);
            Moves(m.panel.frames, Shown(pin)) ==
            Moves(l.panel.frames, Shown(pin)) + EventOf(EdgeOf(l.last[pin], r.pins[pin]))
            && m.last[pin] == r.pins[pin].final
  {
    var turned := HandleEncoder(strikes, HandlePins(strikes, l, r, 0, 6), r);
    KeysMove(strikes, l, r, pin);
    PinMoves(strikes, turned, 6, r.pins[6], pin);
    LastPinMoves(l, r, pin, turned, HandlePin(strikes, turned, 6, r.pins[6]));
  }

  lemma KeysMove(strikes: Strikes, l: Loop, r: Reads, pin: nat)
    requires l.Wf() && r.Wf() && pin < PINS
    ensures var m := HandleEncoder(strikes, HandlePins(strikes, l, r, 0, 6), r);
            Moves(m.panel.frames, Shown(pin)) ==
            Moves(l.panel.frames, Shown(pin)) + (if pin < 6 then EventOf(EdgeOf(l.last[pin], r.pins[pin])) else [])
            && m.last[pin] == if pin < 6 then r.pins[pin].final else l.last[pin]
  {
    PinsMove(strikes, l, r, 0, 6, pin);
    EncoderMoves(strikes, HandlePins(strikes, l, r, 0, 6), r, Shown(pin));
  }

  lemma LastPinMoves(l: Loop, r: Reads, pin: nat, k: Loop, m: Loop)
    requires l.Wf() && r.Wf() && k.Wf() && m.Wf() && pin < PINS
    requires Moves(k.panel.frames, Shown(pin)) ==
      Moves(l.panel.frames, Shown(pin)) + (if pin < 6 then EventOf(EdgeOf(l.last[pin], r.pins[pin])) else [])
    requires k.last[pin] == if pin < 6 then r.pins[pin].final else l.last[pin]
    requires Moves(m.panel.frames, Shown(pin)) ==
      Moves(k.panel.frames, Shown(pin)) + (if 6 == pin then EventOf(EdgeOf(k.last[6], r.pins[6])) else [])
    requires m.last == k.last[6 := r.pins[6].final]
    ensures Moves(m.panel.frames, Shown(pin)) ==
      Moves(l.panel.frames, Shown(pin)) + EventOf(EdgeOf(l.last[pin], r.pins[pin]))
    ensures m.last[pin] == r.pins[pin].final
  {
  }

  lemma PassMoves(strikes: Strikes, l: Loop, r: Reads, pin: nat)
    requires l.Wf() && r.Wf() && pin < PINS
    ensures var m := Pass(strikes, l, r);
            Moves(m.panel.frames, Shown(pin)) ==
            Moves(l.panel.frames, Shown(pin)) + EventOf(EdgeOf(l.last[pin], r.pins[pin]))
            && m.last[pin] == r.pins[pin].final
  {
    var inputs := HandleInputs(strikes, l, r);
    InputsMove(strikes, l, r, pin);
    PacketKeepsMoves(strikes, inputs.panel, r.packet, Shown(pin));
    ClosingFrames(strikes, inputs, r.packet, r.reset);
  }

  // One pin's samples over a run of passes.
  function SamplesOf(history: seq<Reads>, pin: nat): (s: seq<Sample>)
    requires (forall r :: r in history ==> r.Wf()) && pin < PINS
    decreases history
  {
    if history == [] then []
    else
      var r := history[0];
      assert r.Wf();
      [r.pins[pin]] + SamplesOf(history[1..], pin)
  }

  // Over every run of passes the press and release frames that name a pin's control are
  // exactly that pin's events, in order.
  lemma {:induction false} FramesFollowThePin(strikes: Strikes, l: Loop, history: seq<Reads>, pin: nat)
    requires l.Wf() && (forall r :: r in history ==> r.Wf()) && pin < PINS
    ensures Moves(Passes(strikes, l, history).panel.frames, Shown(pin)) ==
      Moves(l.panel.frames, Shown(pin)) + Events(l.last[pin], SamplesOf(history, pin))
    decreases history
  {
    if history != [] {
      assert history[0].Wf();
      var s, rest := history[0].pins[pin], SamplesOf(history[1..], pin);
      PassMoves(strikes, l, history[0], pin);
      FramesFollowThePin(strikes, Pass(strikes, l, history[0]), history[1..], pin);
      assert ([s] + rest)[1..] == rest;
      Reassociate(Moves(l.panel.frames, Shown(pin)), EventOf(EdgeOf(l.last[pin], s)), Events(s.final, rest));
    }
  }

  // So from boot on, while its reads settle, the frames that name a pin's control press and
  // release it in turn, starting with a press exactly when the pin was high at boot.
  lemma FramesAlternate(strikes: Strikes, levels: seq<bool>, encoderA: bool, history: seq<Reads>, pin: nat, k: nat)
    requires |levels| == PINS && (forall r :: r in history ==> r.Wf()) && pin < PINS
    requires AllSettled(levels[pin], SamplesOf(history, pin))
    requires k < |Moves(Passes(strikes, Boot(levels, encoderA), history).panel.frames, Shown(pin))|
    ensures Moves(Passes(strikes, Boot(levels, encoderA), history).panel.frames, Shown(pin))[k]
         == (levels[pin] == (k % 2 == 0))
  {
    MovesFromBoot(strikes, levels, encoderA, history, pin);
    EventsAlternate(levels[pin], SamplesOf(history, pin), k);
  }

  lemma MovesFromBoot(strikes: Strikes, levels: seq<bool>, encoderA: bool, history: seq<Reads>, pin: nat)
    requires |levels| == PINS && (forall r :: r in history ==> r.Wf()) && pin < PINS
    ensures Moves(Passes(strikes, Boot(levels, encoderA), history).panel.frames, Shown(pin))
         == Events(levels[pin], SamplesOf(history, pin))
  {
    FramesFollowThePin(strikes, Boot(levels, encoderA), history, pin);
    NothingSentAtBoot(levels, encoderA, Shown(pin));
  }

  lemma NothingSentAtBoot(levels: seq<bool>, encoderA: bool, visible: bv8)
    requires |levels| == PINS
    ensures Moves(Boot(levels, encoderA).panel.frames, visible) == []
  {
  }
}
