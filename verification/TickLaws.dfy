/**
 What the LEDs show over time: the waveforms of include/led_control.c lifted to the frames
 that successive ticks send down the chain, and to the passes of macropad_test.c.
 */
module TickLaws {
  import opened Wrappers
  import opened Leds
  import opened LedLaws
  import opened Control
  import opened MainLoop
  import opened Keyboard

  // ---------------------------------------------------------------- ticks

  function Ticks(s: State, n: nat): (t: State)
    requires s.Wf()
    ensures t.Wf()
  {
    if n == 0 then s else Tick(Ticks(s, n - 1))
  }

  lemma {:induction false} TicksAppend(s: State, a: nat, b: nat)
    requires s.Wf()
    ensures Ticks(s, a + b) == Ticks(Ticks(s, a), b)
    decreases b
  {
    if b > 0 {
      TicksAppend(s, a, b - 1);
    }
  }

  lemma OneTick(s: State)
    requires s.Wf()
    ensures Tick(s).tick == (s.tick + 1) % 0x1_0000 && Tick(s).config == s.config
  {
  }

  // The animation counter counts the ticks in 16 bits; the settings stay.
  lemma {:induction false} TicksAdvance(s: State, n: nat)
    requires s.Wf()
    ensures Ticks(s, n).tick == (s.tick + n) % 0x1_0000 && Ticks(s, n).config == s.config
    decreases n
  {
    if n > 0 {
      TicksAdvance(s, n - 1);
      OneTick(Ticks(s, n - 1));
      NextTick(s.tick + n - 1);
    }
  }

  lemma NextTick(t: nat)
    ensures (t % 0x1_0000 + 1) % 0x1_0000 == (t + 1) % 0x1_0000
  {
  }

  // ---------------------------------------------------------------- what they show

  // The chain is K3, K2, K1, K6, K5, K4.
  function PlaceOf(led: nat): (p: nat)
    requires led < 6
    ensures p < 6
  {
    [2, 1, 0, 5, 4, 3][led]
  }

  // The configured colour at this level.
  function Lit(c: Config, level: nat): Color {
    Color(Scaled(c.red, level), Scaled(c.green, level), Scaled(c.blue, level))
  }

  function LevelAfter(s: State, led: nat, n: nat): nat
    requires s.Wf() && led < 6
  {
    EffectLevel(s.config[led], (s.tick + n) % 0x1_0000)
  }

  lemma PixelIsLit(c: Config, tick: nat)
    requires c.Wf()
    ensures Pixel(c, tick) == Lit(c, EffectLevel(c, tick))
  {
    LevelAtMostBrightness(c, tick);
    ScaleIsLossless(c.red, EffectLevel(c, tick));
    ScaleIsLossless(c.green, EffectLevel(c, tick));
    ScaleIsLossless(c.blue, EffectLevel(c, tick));
  }

  lemma RenderedPixel(s: State, led: nat)
    requires s.Wf() && led < 6
    ensures |Render(s).chain| == 6
    ensures Render(s).chain[PlaceOf(led)] == Pixel(s.config[led], s.tick)
  {
  }

  // After n ticks each LED shows, at its place in the chain, its colour at the level of
  // that moment.
  lemma TicksShow(s: State, n: nat, led: nat)
    requires s.Wf() && n > 0 && led < 6
    ensures |Ticks(s, n).chain| == 6
    ensures Ticks(s, n).chain[PlaceOf(led)] == Lit(s.config[led], LevelAfter(s, led, n))
  {
    TicksAdvance(s, n - 1);
    TicksAdvance(s, n);
    TickShows(Ticks(s, n - 1), led);
  }

  lemma TickShows(s: State, led: nat)
    requires s.Wf() && led < 6
    ensures var t := Tick(s);
            |t.chain| == 6
            && t.chain[PlaceOf(led)] == Lit(t.config[led], EffectLevel(t.config[led], t.tick))
  {
    RenderedPixel(s.(tick := U16(s.tick + 1)), led);
    PixelIsLit(s.config[led], U16(s.tick + 1));
  }

  // ---------------------------------------------------------------- blinking

  const BLACK := Color(0, 0, 0)

  predicate ShowsLit(s: State, led: nat, n: nat)
    requires s.Wf() && led < 6
  {
    var chain := Ticks(s, n).chain;
    |chain| == 6 && chain[PlaceOf(led)] == Lit(s.config[led], s.config[led].brightness)
  }

  // How many of the n frames after frame number lo show the LED in its configured colour.
  function LitFrames(s: State, led: nat, lo: nat, n: nat): nat
    requires s.Wf() && led < 6
  {
    if n == 0 then 0 else LitFrames(s, led, lo, n - 1) + (if ShowsLit(s, led, lo + n) then 1 else 0)
  }

  lemma DarkIsBlack(c: Config)
    ensures Lit(c, 0) == BLACK
  {
    NothingScales(c.red);
    NothingScales(c.green);
    NothingScales(c.blue);
  }

  lemma NothingScales(channel: nat)
    ensures Scaled(channel, 0) == 0
  {
    assert Product(channel, 0) == 0;
  }

  lemma BlinkIsOnOrOff(c: Config, tick: nat)
    requires c.Wf() && c.effect == BLINK
    ensures EffectLevel(c, tick) == c.brightness || EffectLevel(c, tick) == 0
  {
    LevelCastsAreLossless(c, tick);
  }

  lemma FrameIsLit(s: State, led: nat, n: nat)
    requires s.Wf() && led < 6 && n > 0 && s.tick + n < 0x1_0000 && s.config[led].effect == BLINK
    requires Lit(s.config[led], s.config[led].brightness) != BLACK
    ensures ShowsLit(s, led, n) <==> EffectLevel(s.config[led], s.tick + n) == s.config[led].brightness
  {
    TicksShow(s, n, led);
    BlinkIsOnOrOff(s.config[led], s.tick + n);
    DarkIsBlack(s.config[led]);
  }

  lemma {:induction false} FramesFollowTicks(s: State, led: nat, lo: nat, n: nat)
    requires s.Wf() && led < 6 && s.tick + lo + n < 0x1_0000 && s.config[led].effect == BLINK
    requires Lit(s.config[led], s.config[led].brightness) != BLACK
    ensures LitFrames(s, led, lo, n) == LitTicks(s.config[led], s.tick + lo + 1, n)
    decreases n
  {
    if n > 0 {
      FramesFollowTicks(s, led, lo, n - 1);
      FrameIsLit(s, led, lo + n);
      assert s.tick + lo + 1 + n - 1 == s.tick + (lo + n);
    }
  }

  // Of any period's worth of successive ticks, exactly half, rounded up, show a blinking
  // LED in its colour.
  lemma BlinkingFrames(s: State, led: nat, lo: nat)
    requires s.Wf() && led < 6 && s.config[led].effect == BLINK
    requires s.tick + lo + s.config[led].period < 0x1_0000
    requires Lit(s.config[led], s.config[led].brightness) != BLACK
    ensures LitFrames(s, led, lo, s.config[led].period) == (s.config[led].period + 1) / 2
  {
    DarkIsBlack(s.config[led]);
    FramesFollowTicks(s, led, lo, s.config[led].period);
    BlinkDutyCycle(s.config[led], s.tick + lo + 1);
  }

  // ---------------------------------------------------------------- pulsing

  lemma TickShowsLevel(s: State, n: nat, led: nat, c: Config, level: nat)
    requires s.Wf() && n > 0 && led < 6 && s.tick + n < 0x1_0000
    requires c == s.config[led] && level == EffectLevel(c, s.tick + n)
    ensures Shows(Ticks(s, n).chain, led, Lit(c, level))
  {
    TicksShow(s, n, led);
    SmallTick(s.tick + n);
  }

  lemma SmallTick(t: nat)
    requires t < 0x1_0000
    ensures t % 0x1_0000 == t
  {
  }

  predicate Shows(chain: seq<Color>, led: nat, color: Color)
    requires led < 6
  {
    |chain| == 6 && chain[PlaceOf(led)] == color
  }

  // Two successive ticks show a pulsing LED at levels no further apart than the slope.
  lemma PulsingFrames(s: State, led: nat, c: Config, n: nat) returns (a: nat, b: nat)
    requires s.Wf() && led < 6 && c == s.config[led] && c.effect == PULSE && n > 0 && s.tick + n + 1 < 0x1_0000
    ensures Shows(Ticks(s, n).chain, led, Lit(c, a)) && Shows(Ticks(s, n + 1).chain, led, Lit(c, b))
    ensures a <= b + CeilDiv(c.brightness, c.period / 2) && b <= a + CeilDiv(c.brightness, c.period / 2)
  {
    a, b := EffectLevel(c, s.tick + n), EffectLevel(c, s.tick + n + 1);
    TickShowsLevel(s, n, led, c, a);
    TickShowsLevel(s, n + 1, led, c, b);
    PulseNeverJumps(c, s.tick + n);
  }

  // Half a period after a tick of phase 0 a pulsing LED shows its full brightness, and at
  // phase 0 nothing.
  lemma PulsingPeaks(s: State, led: nat, c: Config, n: nat)
    requires s.Wf() && led < 6 && c == s.config[led] && c.effect == PULSE && n > 0 && s.tick + n < 0x1_0000
    ensures (s.tick + n) % c.period == c.period / 2 ==> Shows(Ticks(s, n).chain, led, Lit(c, c.brightness))
    ensures (s.tick + n) % c.period == 0 ==> Shows(Ticks(s, n).chain, led, BLACK)
  {
    TickShowsLevel(s, n, led, c, EffectLevel(c, s.tick + n));
    PeakLevels(c, s.tick + n);
    DarkIsBlack(c);
  }

  lemma PeakLevels(c: Config, t: nat)
    requires c.Wf() && c.effect == PULSE
    ensures t % c.period == c.period / 2 ==> EffectLevel(c, t) == c.brightness
    ensures t % c.period == 0 ==> EffectLevel(c, t) == 0
  {
    LevelCastsAreLossless(c, t);
    PulseShape(c.brightness, c.period, 0, c.period);
  }

  // ---------------------------------------------------------------- settings by packet

  // Bytes 5 to 10 of a packet: effect (off if unknown), colour, period (at least 5),
  // brightness.
  predicate Sets(c: Config, packet: seq<bv8>)
    requires |packet| == PACKET_SIZE
  {
    && c.effect == (if packet[5] <= 3 then packet[5] as nat else 0)
    && c.red == packet[6] as nat && c.green == packet[7] as nat && c.blue == packet[8] as nat
    && c.period == (if packet[9] < 5 then 5 else packet[9] as nat)
    && c.brightness == packet[10] as nat
  }

  // Command 0x10 sets the LED it names, 0x11 all of them, 0x12 only turns effects off; the
  // frame shows the new settings at once.
  lemma PacketsSetAndShow(s: State, packet: seq<bv8>, led: nat)
    requires s.Wf() && |packet| == PACKET_SIZE && led < 6 && 0x10 <= packet[3] <= 0x12
    ensures var t := Leds.ApplyPacket(s, packet);
            && (if packet[3] == 0x11 || (packet[3] == 0x10 && packet[4] as nat == led) then Sets(t.config[led], packet)
                else if packet[3] == 0x12 then t.config[led] == s.config[led].(effect := 0)
                else t.config[led] == s.config[led])
            && t.tick == s.tick && |t.chain| == 6
            && t.chain[PlaceOf(led)] == Lit(t.config[led], EffectLevel(t.config[led], s.tick))
  {
    var t := Leds.ApplyPacket(s, packet);
    PixelIsLit(t.config[led], s.tick);
  }

  // At power-on all six are white at 48 of 255.
  lemma PowerOnIsWhite(led: nat)
    requires led < 6
    ensures |PowerOn().chain| == 6 && PowerOn().chain[led] == Color(48, 48, 48) && PowerOn().tick == 0
  {
    ScaleIsLossless(255, 48);
    assert 255 * 48 / 255 == 48;
  }

  // ---------------------------------------------------------------- passes

  predicate ChangesLeds(packet: seq<bv8>) {
    Accepts(packet) && 0x10 <= packet[3] <= 0x12
  }

  // A pass leaves the LEDs as they are, but for a packet and, every twentieth time, a tick.
  lemma PassLeds(strikes: Strikes, l: Loop, r: Reads)
    requires l.Wf() && r.Wf()
    ensures var m := Pass(strikes, l, r);
            var s := if ChangesLeds(r.packet) then Leds.ApplyPacket(l.panel.leds, r.packet) else l.panel.leds;
            m.panel.leds == (if l.divider == 19 then Tick(s) else s)
            && m.divider == (if l.divider == 19 then 0 else l.divider + 1)
  {
    InputsKeepLeds(strikes, l, r);
    PacketLeds(strikes, HandleInputs(strikes, l, r).panel, r.packet);
    ClosingLeds(HandlePacket(strikes, HandleInputs(strikes, l, r), r.packet), r.reset);
  }

  lemma PacketLeds(strikes: Strikes, c: Panel, packet: seq<bv8>)
    requires c.Wf()
    ensures HandleUSB(strikes, c, packet).leds ==
      if ChangesLeds(packet) then Leds.ApplyPacket(c.leds, packet) else c.leds
  {
  }

  lemma ClosingLeds(l: Loop, reset: bool)
    requires l.Wf()
    ensures var m := HandleDelay(HandleTick(l), reset);
            m.panel.leds == (if l.divider == 19 then Tick(l.panel.leds) else l.panel.leds)
            && m.divider == (if l.divider == 19 then 0 else l.divider + 1)
  {
  }

  lemma PinKeepsLeds(strikes: Strikes, l: Loop, i: nat, s: Sample)
    requires l.Wf() && i < PINS
    ensures var m := HandlePin(strikes, l, i, s); m.panel.leds == l.panel.leds && m.divider == l.divider
  {
  }

  lemma {:induction false} PinsKeepLeds(strikes: Strikes, l: Loop, r: Reads, i: nat, n: nat)
    requires l.Wf() && r.Wf() && i <= n <= PINS
    ensures var m := HandlePins(strikes, l, r, i, n); m.panel.leds == l.panel.leds && m.divider == l.divider
    decreases n - i
  {
    if i < n {
      PinKeepsLeds(strikes, l, i, r.pins[i]);
      PinsKeepLeds(strikes, HandlePin(strikes, l, i, r.pins[i]), r, i + 1, n);
    }
  }

  lemma EncoderKeepsLeds(strikes: Strikes, l: Loop, r: Reads)
    requires l.Wf()
    ensures var m := HandleEncoder(strikes, l, r); m.panel.leds == l.panel.leds && m.divider == l.divider
  {
  }

  lemma InputsKeepLeds(strikes: Strikes, l: Loop, r: Reads)
    requires l.Wf() && r.Wf()
    ensures var m := HandleInputs(strikes, l, r); m.panel.leds == l.panel.leds && m.divider == l.divider
  {
    var keys := HandlePins(strikes, l, r, 0, 6);
    PinsKeepLeds(strikes, l, r, 0, 6);
    EncoderKeepsLeds(strikes, keys, r);
    PinKeepsLeds(strikes, HandleEncoder(strikes, keys, r), 6, r.pins[6]);
  }

  // One pass more or less: a tick comes with divider 19 and the divider starts over.
  lemma TickSum(t: nat, d: nat, n: nat, t1: nat, d1: nat)
    requires d < 20 && t1 == (t + if d == 19 then 1 else 0) % 0x1_0000 && d1 == (if d == 19 then 0 else d + 1)
    ensures (t1 + (d1 + n) / 20) % 0x1_0000 == (t + (d + (n + 1)) / 20) % 0x1_0000
    ensures (d1 + n) % 20 == (d + (n + 1)) % 20
  {
    NextDivider(d, n, d1);
    AddTicks(t, if d == 19 then 1 else 0, (d1 + n) / 20);
  }

  lemma NextDivider(d: nat, n: nat, d1: nat)
    requires d < 20 && d1 == (if d == 19 then 0 else d + 1)
    ensures (d + (n + 1)) / 20 == (if d == 19 then 1 else 0) + (d1 + n) / 20
    ensures (d + (n + 1)) % 20 == (d1 + n) % 20
  {
  }

  lemma AddTicks(t: nat, a: nat, b: nat)
    ensures ((t + a) % 0x1_0000 + b) % 0x1_0000 == (t + (a + b)) % 0x1_0000
  {
  }

  // Over every run of passes, whatever the inputs and packets, one tick comes every
  // twentieth pass.
  lemma {:induction false} PassesTick(strikes: Strikes, l: Loop, history: seq<Reads>)
    requires l.Wf() && forall r :: r in history ==> r.Wf()
    ensures TickedTo(l, |history|, Passes(strikes, l, history))
    decreases history
  {
    if history == [] {
      NoTickYet(l);
    } else {
      var r, m := history[0], Pass(strikes, l, history[0]);
      TickOfPass(strikes, l, r);
      PassesTick(strikes, m, history[1..]);
      TickOn(l, m, |history[1..]|, Passes(strikes, m, history[1..]));
    }
  }

  // n passes after l the counter and the divider are these.
  ghost predicate TickedTo(l: Loop, n: nat, m: Loop) {
    && m.panel.leds.tick == (l.panel.leds.tick + (l.divider + n) / 20) % 0x1_0000
    && m.divider == (l.divider + n) % 20
  }

  lemma NoTickYet(l: Loop)
    requires l.Wf()
    ensures TickedTo(l, 0, l)
  {
  }

  // The counter and the divider after one pass.
  ghost predicate TickedOnce(l: Loop, m: Loop) {
    && m.panel.leds.tick == (l.panel.leds.tick + if l.divider == 19 then 1 else 0) % 0x1_0000
    && m.divider == (if l.divider == 19 then 0 else l.divider + 1)
  }

  lemma TickOn(l: Loop, m: Loop, n: nat, z: Loop)
    requires l.Wf() && TickedOnce(l, m) && TickedTo(m, n, z)
    ensures TickedTo(l, n + 1, z)
  {
    TickSum(l.panel.leds.tick, l.divider, n, m.panel.leds.tick, m.divider);
  }

  lemma TickOfPass(strikes: Strikes, l: Loop, r: Reads)
    requires l.Wf() && r.Wf()
    ensures TickedOnce(l, Pass(strikes, l, r))
  {
    PassLeds(strikes, l, r);
    TickOfLeds(l, r, Pass(strikes, l, r));
  }

  lemma TickOfLeds(l: Loop, r: Reads, m: Loop)
    requires l.Wf()
    requires var s := if ChangesLeds(r.packet) then Leds.ApplyPacket(l.panel.leds, r.packet) else l.panel.leds;
             m.panel.leds == (if l.divider == 19 then Tick(s) else s)
             && m.divider == (if l.divider == 19 then 0 else l.divider + 1)
    ensures TickedOnce(l, m)
  {
    var s := if ChangesLeds(r.packet) then Leds.ApplyPacket(l.panel.leds, r.packet) else l.panel.leds;
    if ChangesLeds(r.packet) {
      OtherLedsKeepTheirSettings(l.panel.leds, r.packet, 0);
    }
    OneTick(s);
  }

  // n passes after l the LEDs are those so many ticks later.
  ghost predicate LedsTicked(l: Loop, n: nat, m: Loop)
    requires l.Wf()
  {
    m.panel.leds == Ticks(l.panel.leds, (l.divider + n) / 20)
  }

  // That is so of every run without LED packets.
  lemma {:induction false} PassesAreTicks(strikes: Strikes, l: Loop, history: seq<Reads>)
    requires l.Wf() && forall r :: r in history ==> r.Wf() && !ChangesLeds(r.packet)
    ensures LedsTicked(l, |history|, Passes(strikes, l, history))
    decreases history
  {
    if history == [] {
      NoLedTickYet(l);
    } else {
      var r, m := history[0], Pass(strikes, l, history[0]);
      PassLeds(strikes, l, r);
      PassesAreTicks(strikes, m, history[1..]);
      OnePassThenTicks(l, m, |history[1..]|, Passes(strikes, m, history[1..]));
    }
  }

  lemma NoLedTickYet(l: Loop)
    requires l.Wf()
    ensures LedsTicked(l, 0, l)
  {
  }

  lemma OnePassThenTicks(l: Loop, m: Loop, n: nat, z: Loop)
    requires l.Wf() && m.Wf() && LedsTicked(m, n, z)
    requires m.panel.leds == (if l.divider == 19 then Tick(l.panel.leds) else l.panel.leds)
    requires m.divider == (if l.divider == 19 then 0 else l.divider + 1)
    ensures LedsTicked(l, n + 1, z)
  {
    NextDivider(l.divider, n, m.divider);
    assert Ticks(l.panel.leds, 0) == l.panel.leds && Ticks(l.panel.leds, 1) == Tick(l.panel.leds);
    TicksAppend(l.panel.leds, if l.divider == 19 then 1 else 0, (m.divider + n) / 20);
  }
}
