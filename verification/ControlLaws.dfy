/**
 Laws of the Raw HID frames of include/device_control.c: checksums, rejection, and the
 host's replay of input events.
 */
module ControlLaws {
  import opened Wrappers
  import opened Keyboard
  import opened Actions
  import opened Control
  import Leds

  // ---------------------------------------------------------------- checksums

  lemma {:induction false} XorUpdate(s: seq<bv8>, i: nat, x: bv8)
    requires i < |s|
    ensures Xor(s[i := x]) == Xor(s) ^ s[i] ^ x
    decreases |s|
  {
    var n := |s| - 1;
    if i == n {
      assert s[i := x][..n] == s[..n];
    } else {
      XorUpdate(s[..n], i, x);
      assert s[i := x][..n] == s[..n][i := x];
    }
  }

  // Frames the device sends pass the test it applies to frames it receives.
  lemma SealedFramesAreAccepted(payload: seq<bv8>)
    requires |payload| == PACKET_SIZE - 1
    requires payload[0] == MAGIC_C && payload[1] == MAGIC_P && payload[2] == PROTOCOL_VERSION
    ensures Accepts(Seal(payload))
  {
    assert Seal(payload)[..PACKET_SIZE - 1] == payload;
  }

  lemma OwnFramesAreAccepted(sequence: bv8, visible: bv8, phase: bv8, mask: bv16)
    ensures Accepts(StatusFrame(mask))
    ensures Accepts(InputFrame(sequence, visible, phase, mask))
  {
    SealedFramesAreAccepted(StatusPayload(mask));
    SealedFramesAreAccepted(InputPayload(sequence, visible, phase, mask));
  }

  // Changing any one byte of an accepted frame makes it unacceptable.
  lemma SingleByteChangeIsCaught(packet: seq<bv8>, i: nat, x: bv8)
    requires Accepts(packet) && i < PACKET_SIZE && x != packet[i]
    ensures !Accepts(packet[i := x])
  {
    var n := PACKET_SIZE - 1;
    if i < n {
      XorUpdate(packet[..n], i, x);
      assert packet[i := x][..n] == packet[..n][i := x];
      XorMoves(Xor(packet[..n]), packet[i], x);
    } else {
      assert packet[i := x][..n] == packet[..n];
    }
  }

  lemma XorMoves(sum: bv8, a: bv8, b: bv8)
    requires a != b
    ensures sum ^ a ^ b != sum
  {
  }

  // Whatever arrives, only frames passing the test change anything.
  lemma RejectedFramesChangeNothing(strikes: Strikes, c: Panel, packet: seq<bv8>, i: nat, x: bv8)
    requires c.Wf() && Accepts(packet) && i < PACKET_SIZE && x != packet[i]
    ensures HandleUSB(strikes, c, packet[i := x]) == c
  {
    SingleByteChangeIsCaught(packet, i, x);
  }

  // ---------------------------------------------------------------- visible controls

  lemma VisibleControlIsAnInvolution(control: nat)
    requires control < CONTROL_COUNT
    ensures VISIBLE_CONTROL[control] < 9
    ensures VISIBLE_CONTROL[VISIBLE_CONTROL[control] as nat] as nat == control
  {
  }

  function ControlBit(control: nat): bv16
    requires control < CONTROL_COUNT
  {
    VisibleBit(VISIBLE_CONTROL[control])
  }

  lemma ControlBitsAreSeparate(a: nat, b: nat)
    requires a < CONTROL_COUNT && b < CONTROL_COUNT
    ensures ControlBit(a) != 0
    ensures a != b ==> ControlBit(a) & ControlBit(b) == 0
  {
    VisibleControlIsAnInvolution(a);
    VisibleControlIsAnInvolution(b);
    VisibleBitsAreSeparate(VISIBLE_CONTROL[a], VISIBLE_CONTROL[b]);
  }

  lemma VisibleBitsAreSeparate(a: bv8, b: bv8)
    requires a < 9 && b < 9
    ensures VisibleBit(a) != 0
    ensures a != b ==> VisibleBit(a) & VisibleBit(b) == 0
  {
  }

  // ---------------------------------------------------------------- the host's replay

  function Joined(low: bv8, high: bv8): bv16 {
    (low as bv16) | ((high as bv16) << 8)
  }

  lemma JoinedSplit(mask: bv16)
    ensures Joined(MaskLow(mask), MaskHigh(mask)) == mask
  {
  }

  predicate IsStatus(f: Frame) { |f| == PACKET_SIZE && f[3] == REPORT_STATUS }

  predicate IsInput(f: Frame) { |f| == PACKET_SIZE && f[3] == REPORT_INPUT }

  // A press or release frame sets or clears one bit; a trigger changes nothing.
  function Absorb(mask: bv16, f: Frame): bv16
    requires IsInput(f)
  {
    if f[5] >= 9 then mask
    else if f[6] == PHASE_PRESS then mask | VisibleBit(f[5])
    else if f[6] == PHASE_RELEASE then mask & !VisibleBit(f[5])
    else mask
  }

  // A host that follows the protocol. It numbers event frames itself, reloads its mask
  // from status frames, and remembers whether every event frame so far carried exactly
  // the number and the mask it had worked out on its own.
  datatype Host = Host(mask: bv16, sequence: bv8, agreed: bool) {
    function Receive(f: Frame): Host {
      if IsStatus(f) then this.(mask := Joined(f[10], f[11]))
      else if IsInput(f) then
        var m, n := Absorb(mask, f), sequence + 1;
        Host(m, n, agreed && f[4] == n && Joined(f[7], f[8]) == m)
      else this.(agreed := false)
    }
  }

  function ReplayFrom(h: Host, frames: seq<Frame>): Host {
    if frames == [] then h
    else ReplayFrom(h, frames[..|frames| - 1]).Receive(frames[|frames| - 1])
  }

  function Replay(frames: seq<Frame>): Host {
    ReplayFrom(Host(0, 0, true), frames)
  }

  function EventCount(frames: seq<Frame>): nat {
    if frames == [] then 0
    else EventCount(frames[..|frames| - 1]) + (if IsInput(frames[|frames| - 1]) then 1 else 0)
  }

  datatype Event =
    | Input(control: nat, pressed: bool)
    | Rotation(control: nat)
    | Out(packet: seq<bv8>)

  // The controls whose latest event since the last release-all command was a press.
  datatype Session = Session(panel: Panel, pressed: set<nat>)

  predicate ReleasesAll(packet: seq<bv8>) {
    Accepts(packet) && packet[3] == CMD_RELEASE_ALL
  }

  function Step(strikes: Strikes, s: Session, e: Event): (t: Session)
    requires s.panel.Wf()
    ensures t.panel.Wf()
  {
    match e
    case Input(c, pressed) =>
      Session(EmitInput(strikes, s.panel, c, pressed), if pressed then s.pressed + {c} else s.pressed - {c})
    case Rotation(c) => s.(panel := EmitRotation(strikes, s.panel, c))
    case Out(packet) =>
      Session(HandleUSB(strikes, s.panel, packet), if ReleasesAll(packet) then {} else s.pressed)
  }

  function Run(strikes: Strikes, s: Session, events: seq<Event>): (t: Session)
    requires s.panel.Wf()
    ensures t.panel.Wf()
    decreases events
  {
    if events == [] then s else Run(strikes, Step(strikes, s, events[0]), events[1..])
  }

  ghost predicate Inv(s: Session) {
    && s.panel.Wf()
    && Replay(s.panel.frames) == Host(s.panel.mask, s.panel.sequence, true)
    && MaskMatches(s.panel.mask, s.pressed)
  }

  // A mask bit is set exactly for the controls in the set.
  ghost predicate MaskMatches(mask: bv16, pressed: set<nat>) {
    && (mask & 0x004 != 0 <==> 0 in pressed)
    && (mask & 0x002 != 0 <==> 1 in pressed)
    && (mask & 0x001 != 0 <==> 2 in pressed)
    && (mask & 0x020 != 0 <==> 3 in pressed)
    && (mask & 0x010 != 0 <==> 4 in pressed)
    && (mask & 0x008 != 0 <==> 5 in pressed)
    && (mask & 0x040 != 0 <==> 6 in pressed)
    && (mask & 0x080 != 0 <==> 7 in pressed)
    && (mask & 0x100 != 0 <==> 8 in pressed)
    && mask & 0xFE00 == 0
  }

  lemma MaskMatchesEachControl(mask: bv16, pressed: set<nat>, c: nat)
    requires MaskMatches(mask, pressed) && c < CONTROL_COUNT
    ensures mask & ControlBit(c) != 0 <==> c in pressed
  {
  }

  lemma AppendedFrom(h: Host, frames: seq<Frame>, f: Frame)
    ensures ReplayFrom(h, frames + [f]) == ReplayFrom(h, frames).Receive(f)
  {
    assert (frames + [f])[..|frames|] == frames;
  }

  lemma Appended(frames: seq<Frame>, f: Frame)
    ensures Replay(frames + [f]) == Replay(frames).Receive(f)
  {
    AppendedFrom(Host(0, 0, true), frames, f);
  }

  // The sequence byte is the number of events so far, modulo 256.
  lemma {:induction false} SequenceCountsEvents(frames: seq<Frame>)
    requires forall f :: f in frames ==> IsInput(f) || IsStatus(f)
    ensures Replay(frames).sequence as nat == EventCount(frames) % 256
    decreases |frames|
  {
    if frames != [] {
      var before := frames[..|frames| - 1];
      SequenceCountsEvents(before);
      CountOneMore(Replay(before), frames[|frames| - 1], EventCount(before));
    }
  }

  lemma CountOneMore(h: Host, f: Frame, count: nat)
    requires h.sequence as nat == count % 256 && (IsInput(f) || IsStatus(f))
    ensures h.Receive(f).sequence as nat == (count + if IsInput(f) then 1 else 0) % 256
  {
    ReceiveNumbers(h, f);
    NextCount(h.sequence, count);
  }

  lemma ReceiveNumbers(h: Host, f: Frame)
    requires IsInput(f) || IsStatus(f)
    ensures h.Receive(f).sequence == if IsInput(f) then h.sequence + 1 else h.sequence
  {
  }

  lemma NextCount(sequence: bv8, count: nat)
    requires sequence as nat == count % 256
    ensures (sequence + 1) as nat == (count + 1) % 256
  {
    NextSequence(sequence);
    assert (count + 1) % 256 == if count % 256 == 255 then 0 else count % 256 + 1;
  }

  lemma NextSequence(sequence: bv8)
    ensures (sequence + 1) as nat == if sequence as nat == 255 then 0 else sequence as nat + 1
  {
  }

  lemma InputFrameFields(sequence: bv8, visible: bv8, phase: bv8, mask: bv16)
    ensures var f := InputFrame(sequence, visible, phase, mask);
            IsInput(f) && !IsStatus(f) && f[4] == sequence && f[5] == visible && f[6] == phase
            && Joined(f[7], f[8]) == mask
  {
    JoinedSplit(mask);
  }

  lemma StatusFrameFields(mask: bv16)
    ensures var f := StatusFrame(mask);
            IsStatus(f) && Joined(f[10], f[11]) == mask
  {
    JoinedSplit(mask);
  }

  lemma ReceivePress(h: Host, visible: bv8)
    requires visible < 9 && h.agreed
    ensures var mask := h.mask | VisibleBit(visible);
            h.Receive(InputFrame(h.sequence + 1, visible, PHASE_PRESS, mask)) == Host(mask, h.sequence + 1, true)
  {
    InputFrameFields(h.sequence + 1, visible, PHASE_PRESS, h.mask | VisibleBit(visible));
  }

  lemma ReceiveRelease(h: Host, visible: bv8)
    requires visible < 9 && h.agreed
    ensures var mask := h.mask & !VisibleBit(visible);
            h.Receive(InputFrame(h.sequence + 1, visible, PHASE_RELEASE, mask)) == Host(mask, h.sequence + 1, true)
  {
    InputFrameFields(h.sequence + 1, visible, PHASE_RELEASE, h.mask & !VisibleBit(visible));
  }

  lemma ReceiveTrigger(h: Host, visible: bv8)
    requires visible < 9 && h.agreed
    ensures h.Receive(InputFrame(h.sequence + 1, visible, PHASE_TRIGGER, h.mask)) == h.(sequence := h.sequence + 1)
  {
    InputFrameFields(h.sequence + 1, visible, PHASE_TRIGGER, h.mask);
  }

  lemma ReceiveStatus(h: Host, mask: bv16)
    ensures h.Receive(StatusFrame(mask)) == h.(mask := mask)
  {
    StatusFrameFields(mask);
  }

  lemma PressSetsBit(mask: bv16, pressed: set<nat>, c: nat)
    requires MaskMatches(mask, pressed) && c < CONTROL_COUNT
    ensures MaskMatches(mask | ControlBit(c), pressed + {c})
  {
  }

  lemma ReleaseClearsBit(mask: bv16, pressed: set<nat>, c: nat)
    requires MaskMatches(mask, pressed) && c < CONTROL_COUNT
    ensures MaskMatches(mask & !ControlBit(c), pressed - {c})
  {
  }

  lemma PressExtendsReplay(frames: seq<Frame>, mask: bv16, sequence: bv8, visible: bv8, m: bv16, after: seq<Frame>)
    requires Replay(frames) == Host(mask, sequence, true) && visible < 9 && m == mask | VisibleBit(visible)
    requires after == frames + [InputFrame(sequence + 1, visible, PHASE_PRESS, m)]
    ensures Replay(after) == Host(m, sequence + 1, true)
  {
    ReceivePress(Host(mask, sequence, true), visible);
    Appended(frames, InputFrame(sequence + 1, visible, PHASE_PRESS, m));
  }

  lemma ReleaseExtendsReplay(frames: seq<Frame>, mask: bv16, sequence: bv8, visible: bv8, m: bv16, after: seq<Frame>)
    requires Replay(frames) == Host(mask, sequence, true) && visible < 9 && m == mask & !VisibleBit(visible)
    requires after == frames + [InputFrame(sequence + 1, visible, PHASE_RELEASE, m)]
    ensures Replay(after) == Host(m, sequence + 1, true)
  {
    ReceiveRelease(Host(mask, sequence, true), visible);
    Appended(frames, InputFrame(sequence + 1, visible, PHASE_RELEASE, m));
  }

  // The fields a press or release event changes, spelled out.
  ghost predicate Emitted(c: Panel, d: Panel, control: nat, pressed: bool)
    requires control < CONTROL_COUNT
  {
    var visible, bit := VISIBLE_CONTROL[control], ControlBit(control);
    && d.mask == (if pressed then c.mask | bit else c.mask & !bit)
    && d.sequence == c.sequence + 1
    && d.frames == c.frames
                   + [InputFrame(c.sequence + 1, visible, if pressed then PHASE_PRESS else PHASE_RELEASE, d.mask)]
  }

  lemma InputEmits(strikes: Strikes, c: Panel, control: nat, pressed: bool)
    requires c.Wf() && control < CONTROL_COUNT
    ensures Emitted(c, EmitInput(strikes, c, control, pressed), control, pressed)
  {
  }

  lemma EmittedKeepsReplay(c: Panel, d: Panel, control: nat, pressed: bool)
    requires control < CONTROL_COUNT && Emitted(c, d, control, pressed)
    requires Replay(c.frames) == Host(c.mask, c.sequence, true)
    ensures Replay(d.frames) == Host(d.mask, d.sequence, true)
  {
    var visible := VISIBLE_CONTROL[control];
    VisibleControlIsAnInvolution(control);
    if pressed {
      PressExtendsReplay(c.frames, c.mask, c.sequence, visible, d.mask, d.frames);
    } else {
      ReleaseExtendsReplay(c.frames, c.mask, c.sequence, visible, d.mask, d.frames);
    }
  }

  lemma EmittedKeepsMask(c: Panel, d: Panel, control: nat, pressed: bool, down: set<nat>)
    requires control < CONTROL_COUNT && Emitted(c, d, control, pressed)
    requires MaskMatches(c.mask, down)
    ensures MaskMatches(d.mask, if pressed then down + {control} else down - {control})
  {
    if pressed {
      PressSetsBit(c.mask, down, control);
    } else {
      ReleaseClearsBit(c.mask, down, control);
    }
  }

  lemma InputKeepsInv(strikes: Strikes, s: Session, control: nat, pressed: bool)
    requires Inv(s) && control < CONTROL_COUNT
    ensures Inv(Step(strikes, s, Input(control, pressed)))
  {
    var d := EmitInput(strikes, s.panel, control, pressed);
    InputEmits(strikes, s.panel, control, pressed);
    EmittedKeepsReplay(s.panel, d, control, pressed);
    EmittedKeepsMask(s.panel, d, control, pressed, s.pressed);
  }

  lemma RotationKeepsReplay(strikes: Strikes, c: Panel, control: nat)
    requires c.Wf() && Replay(c.frames) == Host(c.mask, c.sequence, true) && control < CONTROL_COUNT
    ensures var d := EmitRotation(strikes, c, control);
            Replay(d.frames) == Host(d.mask, d.sequence, true) && d.mask == c.mask
  {
    var visible := VISIBLE_CONTROL[control];
    ReceiveTrigger(Host(c.mask, c.sequence, true), visible);
    Appended(c.frames, InputFrame(c.sequence + 1, visible, PHASE_TRIGGER, c.mask));
  }

  // A command changes neither the mask nor the numbering, except that release-all clears
  // the mask; and it sends nothing or one status frame with the mask it leaves.
  lemma OutFields(strikes: Strikes, c: Panel, packet: seq<bv8>)
    requires c.Wf()
    ensures var d, mask := HandleUSB(strikes, c, packet), if ReleasesAll(packet) then 0 else c.mask;
            && d.mask == mask && d.sequence == c.sequence
            && (d.frames == c.frames + [StatusFrame(mask)] || (d.frames == c.frames && mask == c.mask))
  {
  }

  lemma StatusExtendsReplay(frames: seq<Frame>, h: Host, mask: bv16)
    requires Replay(frames) == h
    ensures Replay(frames + [StatusFrame(mask)]) == h.(mask := mask)
  {
    ReceiveStatus(h, mask);
    Appended(frames, StatusFrame(mask));
  }

  lemma OutKeepsInv(strikes: Strikes, s: Session, packet: seq<bv8>)
    requires Inv(s)
    ensures Inv(Step(strikes, s, Out(packet)))
  {
    var c, mask := s.panel, if ReleasesAll(packet) then 0 else s.panel.mask;
    OutFields(strikes, c, packet);
    StatusExtendsReplay(c.frames, Host(c.mask, c.sequence, true), mask);
  }

  lemma RotationKeepsInv(strikes: Strikes, s: Session, control: nat)
    requires Inv(s) && control < CONTROL_COUNT
    ensures Inv(Step(strikes, s, Rotation(control)))
  {
    RotationKeepsReplay(strikes, s.panel, control);
  }

  lemma UnknownKeepsInv(strikes: Strikes, s: Session, control: nat, pressed: bool)
    requires Inv(s) && control >= CONTROL_COUNT
    ensures Inv(Step(strikes, s, Input(control, pressed)))
    ensures Inv(Step(strikes, s, Rotation(control)))
  {
  }

  lemma StepKeepsInv(strikes: Strikes, s: Session, e: Event)
    requires Inv(s)
    ensures Inv(Step(strikes, s, e))
  {
    match e
    case Input(c, pressed) =>
      if c < CONTROL_COUNT {
        InputKeepsInv(strikes, s, c, pressed);
      } else {
        UnknownKeepsInv(strikes, s, c, pressed);
      }
    case Rotation(c) =>
      if c < CONTROL_COUNT {
        RotationKeepsInv(strikes, s, c);
      } else {
        UnknownKeepsInv(strikes, s, c, false);
      }
    case Out(packet) => OutKeepsInv(strikes, s, packet);
  }

  // The host's replay agrees with every event frame and ends at the device's own mask and
  // sequence number, and a mask bit is set exactly for the pressed controls.
  lemma {:induction false} ReplayReproducesMask(strikes: Strikes, s: Session, events: seq<Event>)
    requires Inv(s)
    ensures Inv(Run(strikes, s, events))
    decreases events
  {
    if events != [] {
      StepKeepsInv(strikes, s, events[0]);
      ReplayReproducesMask(strikes, Step(strikes, s, events[0]), events[1..]);
    }
  }

  function PowerOnSession(): (s: Session)
    ensures s.panel.Wf()
  {
    Session(PowerOnPanel(), {})
  }

  lemma SessionStarts()
    ensures Inv(PowerOnSession())
  {
  }

  lemma {:induction false} AgreedFramesAreKnown(frames: seq<Frame>)
    requires Replay(frames).agreed
    ensures forall f :: f in frames ==> IsInput(f) || IsStatus(f)
    decreases |frames|
  {
    if frames != [] {
      var before, last := frames[..|frames| - 1], frames[|frames| - 1];
      AgreedFramesAreKnown(before);
      assert frames == before + [last];
    }
  }

  // From power-on, over every run of events and received packets.
  lemma HostReplaysEveryRun(strikes: Strikes, events: seq<Event>, c: nat)
    requires c < CONTROL_COUNT
    ensures var s := Run(strikes, PowerOnSession(), events);
            Replay(s.panel.frames) == Host(s.panel.mask, s.panel.sequence, true)
            && s.panel.sequence as nat == EventCount(s.panel.frames) % 256
            && (s.panel.mask & ControlBit(c) != 0 <==> c in s.pressed)
  {
    var s := Run(strikes, PowerOnSession(), events);
    SessionStarts();
    ReplayReproducesMask(strikes, PowerOnSession(), events);
    AgreedFramesAreKnown(s.panel.frames);
    SequenceCountsEvents(s.panel.frames);
    MaskMatchesEachControl(s.panel.mask, s.pressed, c);
  }

  // ---------------------------------------------------------------- after lost frames

  // A host may have missed frames before: the one frame a step adds, if any, moves a host's
  // mask as it moves the device's.
  lemma StepMovesMask(strikes: Strikes, c: Panel, e: Event, h: Host)
    requires c.Wf() && h.mask == c.mask
    ensures var d := Step(strikes, Session(c, {}), e).panel;
            c.frames <= d.frames && ReplayFrom(h, d.frames[|c.frames|..]).mask == d.mask
  {
    match e
    case Input(control, pressed) =>
      if control < CONTROL_COUNT {
        InputMovesMask(strikes, c, control, pressed, h);
      }
    case Rotation(control) =>
      if control < CONTROL_COUNT {
        RotationMovesMask(strikes, c, control, h);
      }
    case Out(packet) => OutMovesMask(strikes, c, packet, h);
  }

  lemma OneFrame(h: Host, frames: seq<Frame>, f: Frame)
    ensures ReplayFrom(h, (frames + [f])[|frames|..]) == h.Receive(f)
  {
    assert (frames + [f])[|frames|..] == [] + [f];
    AppendedFrom(h, [], f);
  }

  lemma InputMovesMask(strikes: Strikes, c: Panel, control: nat, pressed: bool, h: Host)
    requires c.Wf() && h.mask == c.mask && control < CONTROL_COUNT
    ensures var d := EmitInput(strikes, c, control, pressed);
            c.frames <= d.frames && ReplayFrom(h, d.frames[|c.frames|..]).mask == d.mask
  {
    var d, visible := EmitInput(strikes, c, control, pressed), VISIBLE_CONTROL[control];
    var phase := if pressed then PHASE_PRESS else PHASE_RELEASE;
    InputEmits(strikes, c, control, pressed);
    VisibleControlIsAnInvolution(control);
    InputFrameFields(c.sequence + 1, visible, phase, d.mask);
    OneFrame(h, c.frames, InputFrame(c.sequence + 1, visible, phase, d.mask));
  }

  lemma RotationMovesMask(strikes: Strikes, c: Panel, control: nat, h: Host)
    requires c.Wf() && h.mask == c.mask && control < CONTROL_COUNT
    ensures var d := EmitRotation(strikes, c, control);
            c.frames <= d.frames && ReplayFrom(h, d.frames[|c.frames|..]).mask == d.mask
  {
    var visible := VISIBLE_CONTROL[control];
    InputFrameFields(c.sequence + 1, visible, PHASE_TRIGGER, c.mask);
    OneFrame(h, c.frames, InputFrame(c.sequence + 1, visible, PHASE_TRIGGER, c.mask));
  }

  lemma OutMovesMask(strikes: Strikes, c: Panel, packet: seq<bv8>, h: Host)
    requires c.Wf() && h.mask == c.mask
    ensures var d := HandleUSB(strikes, c, packet);
            c.frames <= d.frames && ReplayFrom(h, d.frames[|c.frames|..]).mask == d.mask
  {
    var d, mask := HandleUSB(strikes, c, packet), if ReleasesAll(packet) then 0 else c.mask;
    OutFields(strikes, c, packet);
    if d.frames == c.frames + [StatusFrame(mask)] {
      OneFrame(h, c.frames, StatusFrame(mask));
      StatusFrameFields(mask);
    } else {
      assert d.frames[|c.frames|..] == [];
    }
  }

  lemma {:induction false} ReplayFromConcat(h: Host, a: seq<Frame>, b: seq<Frame>)
    ensures ReplayFrom(h, a + b) == ReplayFrom(ReplayFrom(h, a), b)
    decreases |b|
  {
    if b == [] {
      assert a + b == a;
    } else {
      var n := |b| - 1;
      ReplayFromConcat(h, a, b[..n]);
      AppendedFrom(h, a + b[..n], b[n]);
      assert a + b == a + b[..n] + [b[n]];
    }
  }

  lemma SplitReplay(h: Host, frames: seq<Frame>, a: nat, b: nat)
    requires a <= b <= |frames|
    ensures ReplayFrom(h, frames[a..]) == ReplayFrom(ReplayFrom(h, frames[a..b]), frames[b..])
  {
    assert frames[a..] == frames[a..b] + frames[b..];
    ReplayFromConcat(h, frames[a..b], frames[b..]);
  }

  lemma {:induction false} MaskFollows(strikes: Strikes, s: Session, events: seq<Event>, h: Host)
    requires s.panel.Wf() && h.mask == s.panel.mask
    ensures var d := Run(strikes, s, events).panel;
            s.panel.frames <= d.frames && ReplayFrom(h, d.frames[|s.panel.frames|..]).mask == d.mask
    decreases events
  {
    if events == [] {
      assert s.panel.frames[|s.panel.frames|..] == [];
    } else {
      var c, next := s.panel, Step(strikes, s, events[0]);
      StepMovesMask(strikes, c, events[0], h);
      assert next.panel == Step(strikes, Session(c, {}), events[0]).panel;
      var h' := ReplayFrom(h, next.panel.frames[|c.frames|..]);
      MaskFollows(strikes, next, events[1..], h');
      TwoStretches(h, c.frames, next.panel.frames, Run(strikes, s, events).panel.frames);
    }
  }

  lemma TwoStretches(h: Host, a: seq<Frame>, b: seq<Frame>, c: seq<Frame>)
    requires a <= b <= c
    ensures ReplayFrom(h, c[|a|..]) == ReplayFrom(ReplayFrom(h, b[|a|..]), c[|b|..])
  {
    assert c[|a|..] == b[|a|..] + c[|b|..];
    ReplayFromConcat(h, b[|a|..], c[|b|..]);
  }

  // Whatever mask a host had, wrong or right, it has the device's from the next status
  // frame on, over every run that follows.
  lemma StatusResynchronises(strikes: Strikes, s: Session, packet: seq<bv8>, events: seq<Event>, h: Host)
    requires s.panel.Wf() && Accepts(packet) && (packet[3] == CMD_STATUS || packet[3] == CMD_RELEASE_ALL)
    ensures var d := Run(strikes, Step(strikes, s, Out(packet)), events).panel;
            s.panel.frames <= d.frames && ReplayFrom(h, d.frames[|s.panel.frames|..]).mask == d.mask
  {
    var c, next := s.panel, Step(strikes, s, Out(packet));
    var mask := if ReleasesAll(packet) then 0 else c.mask;
    StatusIsSent(strikes, c, packet);
    OneFrame(h, c.frames, StatusFrame(mask));
    StatusFrameFields(mask);
    MaskFollows(strikes, next, events, h.Receive(StatusFrame(mask)));
    TwoStretches(h, c.frames, next.panel.frames, Run(strikes, next, events).panel.frames);
  }

  // The same for a host that comes in some events before the request.
  lemma StatusRestores(strikes: Strikes, s: Session, before: seq<Event>, asked: Session, packet: seq<bv8>,
                       after: seq<Event>, h: Host)
    requires s.panel.Wf() && asked == Run(strikes, s, before)
    requires Accepts(packet) && (packet[3] == CMD_STATUS || packet[3] == CMD_RELEASE_ALL)
    ensures var d := Run(strikes, Step(strikes, asked, Out(packet)), after).panel;
            s.panel.frames <= asked.panel.frames <= d.frames
            && ReplayFrom(h, d.frames[|s.panel.frames|..]).mask == d.mask
  {
    var d := Run(strikes, Step(strikes, asked, Out(packet)), after).panel;
    var a, b := |s.panel.frames|, |asked.panel.frames|;
    FramesGrow(strikes, s, before);
    FramesGrow(strikes, asked, [Out(packet)] + after);
    assert ([Out(packet)] + after)[1..] == after;
    StatusResynchronises(strikes, asked, packet, after, ReplayFrom(h, d.frames[a..b]));
    SplitReplay(h, d.frames, a, b);
  }

  lemma StatusIsSent(strikes: Strikes, c: Panel, packet: seq<bv8>)
    requires c.Wf() && Accepts(packet) && (packet[3] == CMD_STATUS || packet[3] == CMD_RELEASE_ALL)
    ensures var d, mask := HandleUSB(strikes, c, packet), if ReleasesAll(packet) then 0 else c.mask;
            d.mask == mask && d.frames == c.frames + [StatusFrame(mask)]
  {
  }

  function MaskIn(f: Frame): bv16 {
    if IsStatus(f) then Joined(f[10], f[11]) else if IsInput(f) then Joined(f[7], f[8]) else 0
  }

  // A step sends nothing, or one frame that carries the mask it leaves.
  ghost predicate SendsItsMask(c: Panel, d: Panel) {
    && c.frames <= d.frames
    && |d.frames| <= |c.frames| + 1
    && (|d.frames| > |c.frames| ==> MaskIn(d.frames[|c.frames|]) == d.mask)
  }

  lemma StepSendsItsMask(strikes: Strikes, c: Panel, e: Event)
    requires c.Wf()
    ensures SendsItsMask(c, Step(strikes, Session(c, {}), e).panel)
  {
    match e
    case Input(control, pressed) =>
      if control < CONTROL_COUNT {
        InputSendsItsMask(strikes, c, control, pressed);
      }
    case Rotation(control) =>
      if control < CONTROL_COUNT {
        RotationSendsItsMask(strikes, c, control);
      }
    case Out(packet) => OutSendsItsMask(strikes, c, packet);
  }

  lemma InputSendsItsMask(strikes: Strikes, c: Panel, control: nat, pressed: bool)
    requires c.Wf() && control < CONTROL_COUNT
    ensures SendsItsMask(c, EmitInput(strikes, c, control, pressed))
  {
    var d, visible := EmitInput(strikes, c, control, pressed), VISIBLE_CONTROL[control];
    var phase := if pressed then PHASE_PRESS else PHASE_RELEASE;
    InputEmits(strikes, c, control, pressed);
    InputFrameFields(c.sequence + 1, visible, phase, d.mask);
  }

  lemma RotationSendsItsMask(strikes: Strikes, c: Panel, control: nat)
    requires c.Wf() && control < CONTROL_COUNT
    ensures SendsItsMask(c, EmitRotation(strikes, c, control))
  {
    InputFrameFields(c.sequence + 1, VISIBLE_CONTROL[control], PHASE_TRIGGER, c.mask);
  }

  lemma OutSendsItsMask(strikes: Strikes, c: Panel, packet: seq<bv8>)
    requires c.Wf()
    ensures SendsItsMask(c, HandleUSB(strikes, c, packet))
  {
    OutFields(strikes, c, packet);
    StatusFrameFields(if ReleasesAll(packet) then 0 else c.mask);
  }

  // Number n of the frames from a on, counted from 1, tells the host the mask it has then.
  ghost predicate TellsMask(h: Host, frames: seq<Frame>, a: nat, n: nat) {
    0 < n && a + n <= |frames| && ReplayFrom(h, frames[a..a + n]).mask == MaskIn(frames[a + n - 1])
  }

  lemma FirstTellsMask(h: Host, c: Panel, d: Panel, frames: seq<Frame>)
    requires SendsItsMask(c, d) && |c.frames| < |d.frames| && d.frames <= frames
    requires ReplayFrom(h, d.frames[|c.frames|..]).mask == d.mask
    ensures TellsMask(h, frames, |c.frames|, 1)
  {
    assert frames[|c.frames|..|c.frames| + 1] == d.frames[|c.frames|..];
  }

  lemma LaterTellsMask(h: Host, frames: seq<Frame>, a: nat, b: nat, n: nat)
    requires a <= b <= |frames| && b < a + n
    requires TellsMask(ReplayFrom(h, frames[a..b]), frames, b, a + n - b)
    ensures TellsMask(h, frames, a, n)
  {
    assert frames[a..a + n] == frames[a..b] + frames[b..a + n];
    ReplayFromConcat(h, frames[a..b], frames[b..a + n]);
  }

  // A host with the right mask has, after each later frame, the mask that frame carries,
  // which is the device's when it sent it.
  lemma {:induction false} MaskFollowsEachFrame(strikes: Strikes, s: Session, events: seq<Event>, h: Host,
                                                frames: seq<Frame>, n: nat)
    requires s.panel.Wf() && h.mask == s.panel.mask && frames == Run(strikes, s, events).panel.frames
    requires 0 < n && |s.panel.frames| + n <= |frames|
    ensures TellsMask(h, frames, |s.panel.frames|, n)
    decreases events
  {
    if events != [] {
      var next := Step(strikes, s, events[0]);
      var a, b := |s.panel.frames|, |next.panel.frames|;
      NextFrame(strikes, s, events[0], next, h);
      FramesGrow(strikes, next, events[1..]);
      if a + n > b {
        PrefixPart(next.panel.frames, frames, a);
        MaskFollowsEachFrame(strikes, next, events[1..], ReplayFrom(h, frames[a..b]), frames, a + n - b);
        LaterTellsMask(h, frames, a, b, n);
      } else {
        FirstTellsMask(h, s.panel, next.panel, frames);
      }
    }
  }

  lemma PrefixPart(part: seq<Frame>, all: seq<Frame>, a: nat)
    requires part <= all && a <= |part|
    ensures all[a..|part|] == part[a..]
  {
  }

  lemma NextFrame(strikes: Strikes, s: Session, e: Event, next: Session, h: Host)
    requires s.panel.Wf() && h.mask == s.panel.mask && next == Step(strikes, s, e)
    ensures SendsItsMask(s.panel, next.panel)
    ensures ReplayFrom(h, next.panel.frames[|s.panel.frames|..]).mask == next.panel.mask
  {
    assert next.panel == Step(strikes, Session(s.panel, {}), e).panel;
    StepSendsItsMask(strikes, s.panel, e);
    StepMovesMask(strikes, s.panel, e, h);
  }

  lemma FramesGrow(strikes: Strikes, s: Session, events: seq<Event>)
    requires s.panel.Wf()
    ensures s.panel.frames <= Run(strikes, s, events).panel.frames
  {
    MaskFollows(strikes, s, events, Host(s.panel.mask, 0, true));
  }

  // Whatever a host had before, so it is from the answer to a status request on.
  lemma EachFrameAfterStatus(strikes: Strikes, s: Session, packet: seq<bv8>, events: seq<Event>, h: Host,
                             frames: seq<Frame>, n: nat)
    requires s.panel.Wf() && Accepts(packet) && (packet[3] == CMD_STATUS || packet[3] == CMD_RELEASE_ALL)
    requires frames == Run(strikes, Step(strikes, s, Out(packet)), events).panel.frames
    requires 0 < n && |s.panel.frames| + n <= |frames|
    ensures TellsMask(h, frames, |s.panel.frames|, n)
  {
    var next, a := Step(strikes, s, Out(packet)), |s.panel.frames|;
    AnswerSetsMask(strikes, s, packet, next, h);
    FramesGrow(strikes, next, events);
    if n > 1 {
      assert frames[a..a + 1] == next.panel.frames[a..];
      MaskFollowsEachFrame(strikes, next, events, ReplayFrom(h, frames[a..a + 1]), frames, n - 1);
      LaterTellsMask(h, frames, a, a + 1, n);
    } else {
      FirstTellsMask(h, s.panel, next.panel, frames);
    }
  }

  lemma AnswerSetsMask(strikes: Strikes, s: Session, packet: seq<bv8>, next: Session, h: Host)
    requires s.panel.Wf() && Accepts(packet) && (packet[3] == CMD_STATUS || packet[3] == CMD_RELEASE_ALL)
    requires next == Step(strikes, s, Out(packet))
    ensures SendsItsMask(s.panel, next.panel) && |next.panel.frames| == |s.panel.frames| + 1
    ensures ReplayFrom(h, next.panel.frames[|s.panel.frames|..]).mask == next.panel.mask
  {
    var mask := if ReleasesAll(packet) then 0 else s.panel.mask;
    OutSendsItsMask(strikes, s.panel, packet);
    StatusIsSent(strikes, s.panel, packet);
    OneFrame(h, s.panel.frames, StatusFrame(mask));
    StatusFrameFields(mask);
  }

  // A host that agreed after all frames agreed after all but the last.
  lemma AgreedBefore(frames: seq<Frame>)
    requires frames != [] && Replay(frames).agreed
    ensures Replay(frames[..|frames| - 1]).agreed
  {
  }
}
