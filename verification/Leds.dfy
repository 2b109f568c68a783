/**
 LED effects of include/led_control.c: narrow-integer waveforms, the configuration table
 and the order in which the six pixels leave the chip.
 */
module Leds {
  import opened Wrappers

  const LED_COUNT := 6

  const CMD_SET_ONE: bv8 := 0x10
  const CMD_SET_ALL: bv8 := 0x11
  const CMD_ALL_OFF: bv8 := 0x12

  const OFF := 0
  const STEADY := 1
  const BLINK := 2
  const PULSE := 3

  // C's conversions to uint8_t and uint16_t.
  function U8(x: nat): nat { x % 0x100 }
  function U16(x: nat): nat { x % 0x1_0000 }

  // C's products and quotients of non-negative values.
  function Product(a: nat, b: nat): nat { a * b }

  function Quotient(x: nat, h: nat): nat
    requires h > 0
  {
    x / h
  }

  datatype Config = Config(effect: nat, red: nat, green: nat, blue: nat, period: nat, brightness: nat) {
    ghost predicate Wf() {
      && effect <= PULSE
      && red < 256 && green < 256 && blue < 256
      && 5 <= period < 256 && brightness < 256
    }
  }

  datatype Color = Color(red: nat, green: nat, blue: nat)

  datatype State = State(config: seq<Config>, tick: nat, chain: seq<Color>) {
    ghost predicate Wf() {
      && |config| == LED_COUNT && (forall i :: 0 <= i < LED_COUNT ==> config[i].Wf())
      && tick < 0x1_0000
    }
  }

  function ScaleChannel(channel: nat, level: nat): nat {
    U8(U16(channel * level) / 255)
  }

  function Phase(tick: nat, period: nat): (phase: nat)
    requires 0 < period < 256
    ensures phase == tick % period < period
  {
    U8(tick % period)
  }

  function PulseLevel(brightness: nat, period: nat, phase: nat): nat
    requires 5 <= period && phase < period
  {
    var half := period / 2;
    if phase <= half then U8(Quotient(U16(Product(brightness, phase)), half))
    else U8(Quotient(U16(Product(brightness, period - phase)), period - half))
  }

  function EffectLevel(c: Config, tick: nat): nat
    requires c.Wf()
  {
    var period := if c.period < 5 then 5 else c.period;
    var phase := Phase(tick, period);
    if c.effect == STEADY then c.brightness
    else if c.effect == BLINK then if phase < (period + 1) / 2 then c.brightness else 0
    else if c.effect == PULSE then PulseLevel(c.brightness, period, phase)
    else 0
  }

  function Pixel(c: Config, tick: nat): Color
    requires c.Wf()
  {
    var level := EffectLevel(c, tick);
    Color(ScaleChannel(c.red, level), ScaleChannel(c.green, level), ScaleChannel(c.blue, level))
  }

  // The pixels are chained K3, K2, K1, K6, K5, K4.
  const CHAIN_ORDER := [2, 1, 0, 5, 4, 3]

  function Render(s: State): (r: State)
    requires s.Wf()
    ensures r.Wf()
  {
    s.(chain := seq(LED_COUNT, i requires 0 <= i < LED_COUNT => Pixel(s.config[CHAIN_ORDER[i]], s.tick)))
  }

  function PacketConfig(packet: seq<bv8>): (c: Config)
    requires |packet| == PACKET_SIZE
    ensures c.Wf()
  {
    Config(if packet[5] <= 3 then packet[5] as nat else OFF,
           packet[6] as nat, packet[7] as nat, packet[8] as nat,
           if packet[9] < 5 then 5 else packet[9] as nat,
           packet[10] as nat)
  }

  function ApplyPacket(s: State, packet: seq<bv8>): (r: State)
    requires s.Wf() && |packet| == PACKET_SIZE
    ensures r.Wf()
  {
    if packet[3] == CMD_SET_ONE then
      Render(if packet[4] < 6 then s.(config := s.config[packet[4] as nat := PacketConfig(packet)]) else s)
    else if packet[3] == CMD_SET_ALL then
      Render(s.(config := seq(LED_COUNT, _ => PacketConfig(packet))))
    else if packet[3] == CMD_ALL_OFF then
      Render(s.(config := seq(LED_COUNT, i requires 0 <= i < LED_COUNT => s.config[i].(effect := OFF))))
    else s
  }

  function Tick(s: State): (r: State)
    requires s.Wf()
    ensures r.Wf()
  {
    Render(s.(tick := U16(s.tick + 1)))
  }

  const POWER_ON_CONFIG := Config(STEADY, 255, 255, 255, 50, 48)

  function PowerOn(): (s: State)
    ensures s.Wf()
  {
    Render(State(seq(LED_COUNT, _ => POWER_ON_CONFIG), 0, []))
  }

  lemma ChainOf(s: State, frame: seq<Color>)
    requires s.Wf() && |frame| == LED_COUNT
    requires forall j :: 0 <= j < LED_COUNT ==> frame[j] == Pixel(s.config[j], s.tick)
    ensures Render(s).chain == [frame[2], frame[1], frame[0], frame[5], frame[4], frame[3]]
  {
  }

  // ---------------------------------------------------------------- the table in place

  class LedTable {
    const config: array<Config>
    const frame: array<Color>
    var animationTick: nat
    var chain: seq<Color>

    ghost function Footprint(): set<object> { {this, config, frame} }

    ghost function Contents(): State
      reads this, config
    {
      State(config[..], animationTick, chain)
    }

    ghost predicate Valid()
      reads this, config
    {
      && config.Length == LED_COUNT && frame.Length == LED_COUNT
      && (config as object) != frame
      && Contents().Wf()
    }

    constructor ()
      ensures Valid() && Contents() == PowerOn() && fresh(Footprint())
    {
      config := new Config[LED_COUNT](_ => POWER_ON_CONFIG);
      frame := new Color[LED_COUNT](_ => Color(0, 0, 0));
      animationTick := 0;
      chain := [];
      new;
      assert config[..] == seq(LED_COUNT, _ => POWER_ON_CONFIG);
      Show();
    }

    // Computes all six pixels first, then writes them in chain order.
    method Show()
      requires Valid()
      modifies this`chain, frame
      ensures Valid() && Contents() == Render(old(Contents()))
    {
      var i := 0;
      while i < LED_COUNT
        invariant 0 <= i <= LED_COUNT
        invariant forall j :: 0 <= j < i ==> frame[j] == Pixel(config[j], animationTick)
        modifies frame
      {
        frame[i] := Pixel(config[i], animationTick);
        i := i + 1;
      }
      chain := [frame[2], frame[1], frame[0], frame[5], frame[4], frame[3]];
      ChainOf(Contents(), frame[..]);
    }

    method SetFromPacket(index: nat, packet: seq<bv8>)
      requires Valid() && |packet| == PACKET_SIZE
      modifies config
      ensures Valid()
      ensures config[..] == if index < LED_COUNT then old(config[..])[index := PacketConfig(packet)]
                            else old(config[..])
    {
      if index >= LED_COUNT {
        return;
      }
      config[index] := PacketConfig(packet);
    }

    method Apply(packet: seq<bv8>)
      requires Valid() && |packet| == PACKET_SIZE
      modifies Footprint()
      ensures Valid() && Contents() == ApplyPacket(old(Contents()), packet)
    {
      if packet[3] == CMD_SET_ONE {
        SetFromPacket(packet[4] as nat, packet);
      } else if packet[3] == CMD_SET_ALL {
        SetAll(packet);
      } else if packet[3] == CMD_ALL_OFF {
        AllOff();
      } else {
        return;
      }
      Show();
    }

    method SetAll(packet: seq<bv8>)
      requires Valid() && |packet| == PACKET_SIZE
      modifies config
      ensures Valid() && config[..] == seq(LED_COUNT, _ => PacketConfig(packet))
    {
      var i := 0;
      while i < LED_COUNT
        invariant Valid() && 0 <= i <= LED_COUNT
        invariant forall j :: 0 <= j < i ==> config[j] == PacketConfig(packet)
      {
        SetFromPacket(i, packet);
        i := i + 1;
      }
    }

    method AllOff()
      requires Valid()
      modifies config
      ensures Valid()
      ensures config[..] == seq(LED_COUNT, i requires 0 <= i < LED_COUNT => old(config[i]).(effect := OFF))
    {
      var i := 0;
      while i < LED_COUNT
        invariant 0 <= i <= LED_COUNT
        invariant forall j :: 0 <= j < i ==> config[j] == old(config[j]).(effect := OFF)
        invariant forall j :: i <= j < LED_COUNT ==> config[j] == old(config[j])
      {
        config[i] := config[i].(effect := OFF);
        i := i + 1;
      }
    }

    method Tick20ms()
      requires Valid()
      modifies Footprint()
      ensures Valid() && Contents() == Tick(old(Contents()))
    {
      animationTick := (animationTick + 1) % 0x1_0000;
      Show();
    }
  }
}
