/** Types and byte arithmetic shared by the protocol models. */
module Wrappers {

  type Bytes = seq<bv8>

  datatype Option<+T> = None | Some(value: T)

  // The answer an endpoint's transmit or receive half is set to give, in the order of its
  // two-bit code in a control register.
  datatype Response = Ack | Timeout | Nak | Stall

  // Command frames, and the packets that carry bindings and LED settings.
  const PACKET_SIZE := 32

  function Min(a: nat, b: nat): nat { if a <= b then a else b }

  // ---------------------------------------------------------------- bytes and numbers

  function Zeros(n: nat): (z: Bytes)
    ensures |z| == n
  {
    seq(n, _ => 0)
  }

  lemma SmallModulo(n: nat)
    requires n < 256
    ensures n % 256 == n
  {
  }

  lemma CastModulo(n: nat)
    requires n < 256
    ensures (n as bv8) as nat == n % 256
  {
  }

  lemma CastByte(n: nat)
    requires n < 256
    ensures (n as bv8) as nat == n
  {
    CastModulo(n);
    SmallModulo(n);
  }

  lemma NatOfByte(b: bv8)
    ensures b as nat < 256 && b as nat as bv8 == b
  {
  }
}
