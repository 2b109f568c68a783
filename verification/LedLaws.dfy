/**
 Waveform laws of include/led_control.c. Ticks are compared within one sweep of the
 16-bit tick counter.
 */
module LedLaws {
  import opened Wrappers
  import opened Leds

  // ---------------------------------------------------------------- division

  lemma DivBounds(a: nat, h: nat)
    requires h > 0
    ensures h * (a / h) <= a < h * (a / h) + h
  {
  }

  lemma DivAtMost(a: nat, h: nat, q: nat)
    requires h > 0 && a < h * q + h
    ensures a / h <= q
  {
    DivBounds(a, h);
    assert h * (q + 1) == h * q + h;
    if a / h >= q + 1 {
      MulMonotone(h, q + 1, a / h);
    }
  }

  lemma MulMonotone(h: nat, a: nat, b: nat)
    requires a <= b
    ensures h * a <= h * b
  {
  }

  lemma DivUnique(a: nat, h: nat, q: nat)
    requires h > 0 && h * q <= a < h * q + h
    ensures a / h == q && a % h == a - h * q
  {
    var d := a / h;
    DivAtMost(a, h, q);
    DivBounds(a, h);
    assert h * (d + 1) == h * d + h;
    if d < q {
      MulMonotone(h, d + 1, q);
    }
  }

  lemma DivMonotone(a: nat, b: nat, h: nat)
    requires h > 0 && a <= b
    ensures a / h <= b / h
  {
    DivBounds(b, h);
    DivAtMost(a, h, b / h);
  }

  lemma DivExact(b: nat, h: nat)
    requires h > 0
    ensures b * h / h == b
  {
    DivUnique(b * h, h, b);
  }

  function CeilDiv(b: nat, h: nat): nat
    requires h > 0
  {
    (b + h - 1) / h
  }

  lemma CeilDivCovers(b: nat, h: nat)
    requires h > 0
    ensures b <= h * CeilDiv(b, h)
  {
    DivBounds(b + h - 1, h);
  }

  lemma CeilDivSmallest(b: nat, h: nat, q: nat)
    requires h > 0 && b <= h * q
    ensures CeilDiv(b, h) <= q
  {
    DivAtMost(b + h - 1, h, q);
  }

  lemma CeilDivAntitone(b: nat, h: nat, g: nat)
    requires 0 < h <= g
    ensures CeilDiv(b, g) <= CeilDiv(b, h)
  {
    CeilDivCovers(b, h);
    MulMonotone(CeilDiv(b, h), h, g);
    CeilDivSmallest(b, g, CeilDiv(b, h));
  }

  lemma Distribute(h: nat, q: nat, c: nat)
    ensures h * (q + c) == h * q + h * c
  {
  }

  // One step of a linear ramp of slope b/h.
  lemma RampStep(b: nat, x: nat, h: nat)
    requires h > 0
    ensures b * x / h <= b * (x + 1) / h <= b * x / h + CeilDiv(b, h)
  {
    Distribute(b, x, 1);
    AddedQuotient(b * x, b, h);
  }

  lemma AddedQuotient(a: nat, b: nat, h: nat)
    requires h > 0
    ensures a / h <= (a + b) / h <= a / h + CeilDiv(b, h)
  {
    var q, c := a / h, CeilDiv(b, h);
    DivMonotone(a, a + b, h);
    DivBounds(a, h);
    CeilDivCovers(b, h);
    Distribute(h, q, c);
    DivAtMost(a + b, h, q + c);
  }

  // ---------------------------------------------------------------- waveforms

  // The pulse without any of the source's narrowing.
  function Ramp(b: nat, period: nat, phase: nat): nat
    requires 5 <= period && phase <= period
  {
    var half := period / 2;
    if phase <= half then Quotient(Product(b, phase), half)
    else Quotient(Product(b, period - phase), period - half)
  }

  lemma ProductFits(a: nat, b: nat)
    requires a < 256 && b < 256
    ensures a * b < 0x1_0000
  {
    MulMonotone(a, b, 255);
    MulMonotone(255, a, 255);
  }

  lemma RampAtMost(b: nat, period: nat, phase: nat)
    requires 5 <= period && phase <= period
    ensures Ramp(b, period, phase) <= b
  {
    var half := period / 2;
    if phase <= half {
      MulMonotone(b, phase, half);
      DivMonotone(b * phase, b * half, half);
      DivExact(b, half);
    } else {
      MulMonotone(b, period - phase, period - half);
      DivMonotone(b * (period - phase), b * (period - half), period - half);
      DivExact(b, period - half);
    }
  }

  lemma PulseCastsAreLossless(b: nat, period: nat, phase: nat)
    requires 5 <= period < 256 && phase < period && b < 256
    ensures PulseLevel(b, period, phase) == Ramp(b, period, phase)
  {
    var half := period / 2;
    RampAtMost(b, period, phase);
    if phase <= half {
      ProductFits(b, phase);
      QuotientFits(b * phase, half);
    } else {
      ProductFits(b, period - phase);
      QuotientFits(b * (period - phase), period - half);
    }
  }

  lemma QuotientFits(x: nat, h: nat)
    requires h > 0 && x < 0x1_0000 && x / h < 256
    ensures U8(U16(x) / h) == x / h
  {
    assert U16(x) == x;
  }

  // No cast in the level computation loses anything.
  lemma LevelCastsAreLossless(c: Config, tick: nat)
    requires c.Wf()
    ensures EffectLevel(c, tick) ==
      if c.effect == STEADY then c.brightness
      else if c.effect == BLINK then
        if tick % c.period < (c.period + 1) / 2 then c.brightness else 0
      else if c.effect == PULSE then Ramp(c.brightness, c.period, tick % c.period)
      else 0
  {
    PulseCastsAreLossless(c.brightness, c.period, Phase(tick, c.period));
  }

  lemma LevelAtMostBrightness(c: Config, tick: nat)
    requires c.Wf()
    ensures EffectLevel(c, tick) <= c.brightness < 256
  {
    LevelCastsAreLossless(c, tick);
    RampAtMost(c.brightness, c.period, tick % c.period);
  }

  lemma ScaleIsLossless(channel: nat, level: nat)
    requires channel < 256 && level < 256
    ensures ScaleChannel(channel, level) == channel * level / 255 <= channel
    ensures level == 255 ==> ScaleChannel(channel, level) == channel
  {
    ProductFits(channel, level);
    MulMonotone(channel, level, 255);
    DivMonotone(channel * level, channel * 255, 255);
    DivExact(channel, 255);
  }

  // A pulse rises to exactly the configured brightness at half its period, then falls.
  lemma PulseShape(b: nat, period: nat, x: nat, y: nat)
    requires 5 <= period && x <= y <= period
    ensures y <= period / 2 ==> Ramp(b, period, x) <= Ramp(b, period, y)
    ensures period / 2 <= x ==> Ramp(b, period, x) >= Ramp(b, period, y)
    ensures Ramp(b, period, 0) == 0 && Ramp(b, period, period / 2) == b
  {
    var half := period / 2;
    DivExact(b, half);
    DivExact(b, period - half);
    if y <= half {
      MulMonotone(b, x, y);
      DivMonotone(b * x, b * y, half);
    }
    if half <= x {
      RampAtMost(b, period, y);
      MulMonotone(b, period - y, period - x);
      DivMonotone(b * (period - y), b * (period - x), period - half);
    }
  }

  lemma NeighbouringPhases(b: nat, period: nat, x: nat)
    requires 5 <= period && x < period
    ensures var d := CeilDiv(b, period / 2);
            Ramp(b, period, x + 1) <= Ramp(b, period, x) + d
            && Ramp(b, period, x) <= Ramp(b, period, x + 1) + d
  {
    var half := period / 2;
    if x + 1 <= half {
      RampStep(b, x, half);
    } else {
      RampStep(b, period - (x + 1), period - half);
      CeilDivAntitone(b, half, period - half);
      DivExact(b, half);
      DivExact(b, period - half);
    }
  }

  lemma NextPhase(t: nat, p: nat)
    requires p > 0
    ensures (t + 1) % p == if t % p + 1 == p then 0 else t % p + 1
  {
    var q := t / p;
    DivBounds(t, p);
    DivUnique(t, p, q);
    assert p * (q + 1) == p * q + p;
    if t % p + 1 == p {
      DivUnique(t + 1, p, q + 1);
    } else {
      DivUnique(t + 1, p, q);
    }
  }

  lemma SamePhase(t: nat, p: nat)
    requires p > 0
    ensures (t + p) % p == t % p
  {
    var q := t / p;
    DivBounds(t, p);
    DivUnique(t, p, q);
    assert p * (q + 1) == p * q + p;
    DivUnique(t + p, p, q + 1);
  }

  // Adjacent ticks of a pulse, the period wrap included, never jump by more than the
  // slope of its shorter side, rounded up.
  lemma PulseNeverJumps(c: Config, tick: nat)
    requires c.Wf() && c.effect == PULSE
    ensures var d := CeilDiv(c.brightness, c.period / 2);
            EffectLevel(c, tick + 1) <= EffectLevel(c, tick) + d
            && EffectLevel(c, tick) <= EffectLevel(c, tick + 1) + d
  {
    LevelCastsAreLossless(c, tick);
    LevelCastsAreLossless(c, tick + 1);
    NextPhase(tick, c.period);
    NeighbouringPhases(c.brightness, c.period, tick % c.period);
    PulseShape(c.brightness, c.period, 0, c.period);
    assert c.brightness * 0 == 0;
  }

  // ---------------------------------------------------------------- blinking

  // How many of the n ticks from t on show the configured brightness.
  function LitTicks(c: Config, t: nat, n: nat): nat
    requires c.Wf()
  {
    if n == 0 then 0
    else LitTicks(c, t, n - 1) + (if EffectLevel(c, t + n - 1) == c.brightness then 1 else 0)
  }

  lemma {:induction false} LitTicksFromFront(c: Config, t: nat, n: nat)
    requires c.Wf() && n > 0
    ensures LitTicks(c, t, n) ==
      (if EffectLevel(c, t) == c.brightness then 1 else 0) + LitTicks(c, t + 1, n - 1)
    decreases n
  {
    if n > 1 {
      LitTicksFromFront(c, t, n - 1);
      assert t + 1 + (n - 1) - 1 == t + n - 1;
    }
  }

  lemma Periodic(c: Config, t: nat)
    requires c.Wf()
    ensures EffectLevel(c, t + c.period) == EffectLevel(c, t)
  {
    SamePhase(t, c.period);
  }

  lemma SmallPhase(t: nat, p: nat)
    requires t < p
    ensures t % p == t
  {
    DivUnique(t, p, 0);
  }

  lemma {:induction false} LitInFirstPeriod(c: Config, n: nat)
    requires c.Wf() && c.effect == BLINK && c.brightness > 0 && n <= c.period
    ensures LitTicks(c, 0, n) == if n < (c.period + 1) / 2 then n else (c.period + 1) / 2
    decreases n
  {
    if n > 0 {
      LitInFirstPeriod(c, n - 1);
      LevelCastsAreLossless(c, n - 1);
      SmallPhase(n - 1, c.period);
    }
  }

  // Every window of one period shows a blinking LED lit for exactly half of it, rounded up.
  lemma {:induction false} BlinkDutyCycle(c: Config, t: nat)
    requires c.Wf() && c.effect == BLINK && c.brightness > 0
    ensures LitTicks(c, t, c.period) == (c.period + 1) / 2
    decreases t
  {
    if t == 0 {
      LitInFirstPeriod(c, c.period);
    } else {
      BlinkDutyCycle(c, t - 1);
      LitTicksFromFront(c, t - 1, c.period);
      Periodic(c, t - 1);
      assert t + c.period - 1 == t - 1 + c.period;
    }
  }

  // Each LED leaves the chip exactly once, and reading the chain order twice gives the
  // LEDs in their own order.
  lemma ChainShowsEveryLed(s: State, led: nat)
    requires s.Wf() && led < LED_COUNT
    ensures CHAIN_ORDER[led] < LED_COUNT && CHAIN_ORDER[CHAIN_ORDER[led]] == led
    ensures Render(s).chain[CHAIN_ORDER[led]] == Pixel(s.config[led], s.tick)
  {
  }

  // ---------------------------------------------------------------- packets

  function Scaled(channel: nat, level: nat): nat {
    Quotient(Product(channel, level), 255)
  }

  // A steady colour set by packet shows that colour, scaled by its brightness, on the LED
  // it names or on all.
  lemma SteadyPacketShowsItsColor(s: State, packet: seq<bv8>, led: nat)
    requires s.Wf() && |packet| == PACKET_SIZE && led < LED_COUNT && packet[5] as nat == STEADY
    requires packet[3] == CMD_SET_ALL || (packet[3] == CMD_SET_ONE && packet[4] as nat == led)
    ensures var b := packet[10] as nat;
            ApplyPacket(s, packet).chain[CHAIN_ORDER[led]] ==
            Color(Scaled(packet[6] as nat, b), Scaled(packet[7] as nat, b), Scaled(packet[8] as nat, b))
  {
    var c, b := PacketConfig(packet), packet[10] as nat;
    assert c.effect == STEADY && ApplyPacket(s, packet).config[led] == c;
    ScaleIsLossless(c.red, b);
    ScaleIsLossless(c.green, b);
    ScaleIsLossless(c.blue, b);
    assert CHAIN_ORDER[CHAIN_ORDER[led]] == led;
  }

  // Setting one LED changes the settings of no other, and all-off only darkens: it keeps
  // colours, periods and brightness.
  lemma OtherLedsKeepTheirSettings(s: State, packet: seq<bv8>, led: nat)
    requires s.Wf() && |packet| == PACKET_SIZE && led < LED_COUNT
    ensures packet[3] == CMD_SET_ONE && packet[4] as nat != led ==>
      ApplyPacket(s, packet).config[led] == s.config[led]
    ensures packet[3] == CMD_ALL_OFF ==>
      ApplyPacket(s, packet).config[led] == s.config[led].(effect := OFF)
      && ApplyPacket(s, packet).chain[CHAIN_ORDER[led]] == Color(0, 0, 0)
    ensures ApplyPacket(s, packet).tick == s.tick
  {
    assert CHAIN_ORDER[CHAIN_ORDER[led]] == led;
    NoLevelIsDark(s.config[led].(effect := OFF), s.tick);
  }

  lemma NoLevelIsDark(c: Config, tick: nat)
    requires c.Wf() && c.effect == OFF
    ensures Pixel(c, tick) == Color(0, 0, 0)
  {
    assert EffectLevel(c, tick) == 0;
    ScaleIsLossless(c.red, 0);
    ScaleIsLossless(c.green, 0);
    ScaleIsLossless(c.blue, 0);
  }
}
