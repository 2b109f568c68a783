/**
 The bootloader client of tools/iokit_ch55x_flasher.cpp: command framing, the identity and
 key checks, erase, program and verify, and the exit code of each run.
 */
module Flasher {
  import opened Wrappers

  // What comes back from one bulk exchange.
  datatype RawReply = WriteFailed | ReadFailed | Received(data: Bytes)

  // A device answers as an arbitrary function of everything sent to it so far.
  type Device = seq<Bytes> -> RawReply

  const MAX_CODE_SIZE := 0x3800
  const SECTOR_SIZE := 1024
  const MIN_SECTORS := 8
  const MAX_SECTORS := 14
  const CHUNK := 56
  const MAX_PAYLOAD := 61

  const DETECT: bv8 := 0xA1
  const READ_CONFIG: bv8 := 0xA7
  const SET_KEY: bv8 := 0xA3
  const ERASE: bv8 := 0xA4
  const PROGRAM: bv8 := 0xA5
  const VERIFY: bv8 := 0xA6
  const RESTART: bv8 := 0xA2

  const CHIP_ID: bv8 := 0x52

  datatype Mode = Preflight | SessionTest | Flash

  function Byte(n: nat): bv8 { (n % 256) as bv8 }

  function Max(a: nat, b: nat): nat { if a >= b then a else b }

  // ---------------------------------------------------------------- framing

  function Packet(command: bv8, payload: Bytes): Bytes {
    [command, Byte(|payload|), Byte(|payload| / 256)] + payload
  }

  // The reply payload, if the reply is well formed.
  function ParseReply(command: bv8, r: RawReply): Option<Bytes> {
    if !r.Received? || |r.data| < 4 || r.data[0] != command then None
    else
      var n := r.data[2] as nat + 256 * r.data[3] as nat;
      if n > 60 || |r.data| != n + 4 then None else Some(r.data[4..])
  }

  // The packets sent so far and what a step concluded.
  datatype Sent<+T> = Sent(log: seq<Bytes>, result: Option<T>)

  function Exchange(device: Device, log: seq<Bytes>, command: bv8, payload: Bytes): Sent<Bytes> {
    if |payload| > MAX_PAYLOAD then Sent(log, None)
    else
      var after := log + [Packet(command, payload)];
      Sent(after, ParseReply(command, device(after)))
  }

  predicate Acknowledged(r: Option<Bytes>) {
    r == Some([0x00, 0x00])
  }

  // ---------------------------------------------------------------- the session

  const DETECT_PAYLOAD: Bytes := [
    0x52, 0x11, 0x4D, 0x43, 0x55, 0x20, 0x49, 0x53, 0x50, 0x20, 0x26, 0x20,
    0x57, 0x43, 0x48, 0x2E, 0x43, 0x4E
  ]

  const CONFIG_PAYLOAD: Bytes := [0x1F, 0x00]

  predicate DetectOk(r: Option<Bytes>) {
    r == Some([0x52, 0x11])
  }

  function ReadLe32(b: Bytes): nat
    requires |b| >= 4
  {
    b[0] as nat + 0x100 * b[1] as nat + 0x1_0000 * b[2] as nat + 0x100_0000 * b[3] as nat
  }

  predicate ConfigOk(r: Option<Bytes>) {
    && r.Some? && |r.value| == 26
    && r.value[0] == 0x1F && r.value[1] == 0x00
    && ReadLe32(r.value[2..6]) == 0xFFFF_FFFF
    && ReadLe32(r.value[6..10]) == 0x0000_0023
    && ReadLe32(r.value[10..14]) % 0x1_0000 == 0x52FF
    && r.value[14..18] == [0x00, 0x02, 0x05, 0x00]
  }

  function Uid(config: Bytes): (uid: Bytes)
    requires |config| == 26
    ensures |uid| == 8
  {
    config[18..26]
  }

  // Additive checksum, modulo 256.
  function Sum(b: Bytes): bv8 {
    if b == [] then 0 else Sum(b[..|b| - 1]) + b[|b| - 1]
  }

  // Seven copies of the UID checksum, then the checksum plus the chip ID.
  function SessionKey(uid: Bytes): (key: Bytes)
    requires |uid| == 8
    ensures |key| == 8
  {
    var sum := Sum(uid[..4]);
    [sum, sum, sum, sum, sum, sum, sum, sum + CHIP_ID]
  }

  function KeyPayload(): (p: Bytes)
    ensures |p| == 30
  {
    seq(30, _ => 0)
  }

  predicate KeyOk(key: Bytes, r: Option<Bytes>) {
    r == Some([Sum(key), 0x00])
  }

  function Identify(device: Device, log: seq<Bytes>): (s: Sent<Bytes>)
    ensures s.result.Some? ==> |s.result.value| == 8
  {
    var d := Exchange(device, log, DETECT, DETECT_PAYLOAD);
    if !DetectOk(d.result) then Sent(d.log, None)
    else
      var c := Exchange(device, d.log, READ_CONFIG, CONFIG_PAYLOAD);
      if !ConfigOk(c.result) then Sent(c.log, None) else Sent(c.log, Some(Uid(c.result.value)))
  }

  function SetKey(device: Device, log: seq<Bytes>, uid: Bytes): (s: Sent<Bytes>)
    requires |uid| == 8
    ensures s.result.Some? ==> |s.result.value| == 8
  {
    var k := Exchange(device, log, SET_KEY, KeyPayload());
    if KeyOk(SessionKey(uid), k.result) then Sent(k.log, Some(SessionKey(uid))) else Sent(k.log, None)
  }

  // ---------------------------------------------------------------- erase and transfer

  function Le32(n: nat): (b: Bytes)
    ensures |b| == 4
  {
    [Byte(n), Byte(n / 0x100), Byte(n / 0x1_0000), Byte(n / 0x100_0000)]
  }

  function EraseSectors(size: nat): nat {
    Max(MIN_SECTORS, (size + SECTOR_SIZE - 1) / SECTOR_SIZE)
  }

  function Padded(image: Bytes): (p: Bytes)
    ensures |p| % 8 == 0 && |image| <= |p| < |image| + 8
    ensures p[..|image|] == image && forall i :: |image| <= i < |p| ==> p[i] == 0
  {
    image + seq((8 - |image| % 8) % 8, _ => 0)
  }

  // The key restarts with every chunk.
  function Encoded(data: Bytes, key: Bytes): (e: Bytes)
    requires |key| == 8
    ensures |e| == |data|
  {
    seq(|data|, i requires 0 <= i < |data| => data[i] ^ key[i % 8])
  }

  function ChunkLength(image: Bytes, offset: nat): (n: nat)
    requires offset < |image|
    ensures 0 < n <= CHUNK && offset + n <= |image|
  {
    Min(CHUNK, |image| - offset)
  }

  function ChunkPayload(image: Bytes, key: Bytes, offset: nat): (p: Bytes)
    requires offset < |image| && |key| == 8
    ensures |p| == 5 + ChunkLength(image, offset) <= MAX_PAYLOAD
  {
    Le32(offset) + [0x00] + Encoded(image[offset..offset + ChunkLength(image, offset)], key)
  }

  function Transfer(device: Device, log: seq<Bytes>, command: bv8, image: Bytes, key: Bytes, offset: nat)
    : Sent<()>
    requires |key| == 8
    decreases |image| - offset
  {
    if offset >= |image| then Sent(log, Some(()))
    else
      var r := Exchange(device, log, command, ChunkPayload(image, key, offset));
      if !Acknowledged(r.result) then Sent(r.log, None)
      else Transfer(device, r.log, command, image, key, offset + ChunkLength(image, offset))
  }

  lemma TransferStep(device: Device, log: seq<Bytes>, command: bv8, image: Bytes, key: Bytes, offset: nat)
    requires |key| == 8 && offset < |image|
    ensures var r := Exchange(device, log, command, ChunkPayload(image, key, offset));
            Transfer(device, log, command, image, key, offset) ==
            if Acknowledged(r.result) then
              Transfer(device, r.log, command, image, key, offset + Min(CHUNK, |image| - offset))
            else Sent(r.log, None)
  {
  }

  // ---------------------------------------------------------------- main

  predicate SizeOk(firmware: Bytes) {
    firmware != [] && |firmware| <= MAX_CODE_SIZE
  }

  datatype Exit = Exit(code: nat, log: seq<Bytes>)

  function FlashSession(device: Device, log: seq<Bytes>, firmware: Bytes, key: Bytes): Exit
    requires |key| == 8
  {
    var e := Exchange(device, log, ERASE, Le32(EraseSectors(|firmware|)));
    if !Acknowledged(e.result) then Exit(6, e.log)
    else
      var p := Transfer(device, e.log, PROGRAM, Padded(firmware), key, 0);
      if p.result.None? then Exit(7, p.log)
      else
        var v := Transfer(device, p.log, VERIFY, Padded(firmware), key, 0);
        if v.result.None? then Exit(8, v.log)
        else
          var x := Exchange(device, v.log, RESTART, [0x01]);
          Exit(if x.result.None? then 9 else 0, x.log)
  }

  function Session(device: Device, mode: Mode, firmware: Bytes): Exit {
    var d := Identify(device, []);
    if d.result.None? then Exit(4, d.log)
    else if mode == Preflight then Exit(0, d.log)
    else
      var k := SetKey(device, d.log, d.result.value);
      if k.result.None? then Exit(5, k.log)
      else if mode == SessionTest then Exit(0, k.log)
      else FlashSession(device, k.log, firmware, k.result.value)
  }

  // connected: whether the USB interface could be opened.
  function RunTool(device: Device, connected: bool, mode: Mode, firmware: Bytes): Exit {
    if !SizeOk(firmware) || EraseSectors(|firmware|) > MAX_SECTORS then Exit(2, [])
    else if !connected then Exit(3, [])
    else Session(device, mode, firmware)
  }

  // ---------------------------------------------------------------- the client in place

  class Client {
    const device: Device
    var log: seq<Bytes>

    constructor (device: Device)
      ensures this.device == device && log == []
    {
      this.device := device;
      log := [];
    }

    method Command(command: bv8, payload: Bytes) returns (reply: Option<Bytes>)
      modifies this
      ensures Sent(log, reply) == Exchange(device, old(log), command, payload)
    {
      if |payload| > MAX_PAYLOAD {
        return None;
      }
      var packet := [command, Byte(|payload|), Byte(|payload| / 256)] + payload;
      log := log + [packet];
      match device(log)
      case WriteFailed => return None;
      case ReadFailed => return None;
      case Received(data) =>
        if |data| < 4 || data[0] != command {
          return None;
        }
        var n := data[2] as nat + 256 * data[3] as nat;
        if n > 60 || |data| != n + 4 {
          return None;
        }
        return Some(data[4..]);
    }

    method DetectAndReadConfig() returns (uid: Option<Bytes>)
      modifies this
      ensures Sent(log, uid) == Identify(device, old(log))
    {
      var d := Command(DETECT, DETECT_PAYLOAD);
      if !DetectOk(d) {
        return None;
      }
      var c := Command(READ_CONFIG, CONFIG_PAYLOAD);
      if !ConfigOk(c) {
        return None;
      }
      return Some(Uid(c.value));
    }

    method SetSessionKey(uid: Bytes) returns (key: Option<Bytes>)
      requires |uid| == 8
      modifies this
      ensures Sent(log, key) == SetKey(device, old(log), uid)
    {
      var checksum := Checksum(uid[..4]);
      var xorKey := [checksum, checksum, checksum, checksum, checksum, checksum, checksum, checksum + CHIP_ID];
      var expected := Checksum(xorKey);
      var reply := Command(SET_KEY, KeyPayload());
      if reply == Some([expected, 0x00]) {
        return Some(xorKey);
      }
      return None;
    }

    method EraseCodeFlash(sectors: nat) returns (ok: bool)
      modifies this
      ensures log == Exchange(device, old(log), ERASE, Le32(sectors)).log
      ensures ok == Acknowledged(Exchange(device, old(log), ERASE, Le32(sectors)).result)
    {
      var reply := Command(ERASE, Le32(sectors));
      ok := Acknowledged(reply);
    }

    method TransferImage(command: bv8, original: Bytes, key: Bytes) returns (done: Option<()>)
      requires |key| == 8
      modifies this
      ensures Sent(log, done) == Transfer(device, old(log), command, Padded(original), key, 0)
    {
      var image := PadToEight(original);
      var offset := 0;
      ghost var goal := Transfer(device, log, command, image, key, 0);
      while offset < |image|
        invariant 0 <= offset <= |image|
        invariant goal == Transfer(device, log, command, image, key, offset)
      {
        TransferStep(device, log, command, image, key, offset);
        var acknowledged := SendChunk(command, image, key, offset);
        if !acknowledged {
          return None;
        }
        offset := offset + Min(CHUNK, |image| - offset);
      }
      return Some(());
    }

    method SendChunk(command: bv8, image: Bytes, key: Bytes, offset: nat) returns (ok: bool)
      requires |key| == 8 && offset < |image|
      modifies this
      ensures log == Exchange(device, old(log), command, ChunkPayload(image, key, offset)).log
      ensures ok == Acknowledged(Exchange(device, old(log), command, ChunkPayload(image, key, offset)).result)
    {
      var chunk := Min(CHUNK, |image| - offset);
      var data := EncodeChunk(image[offset..offset + chunk], key);
      var reply := Command(command, Le32(offset) + [0x00] + data);
      ok := Acknowledged(reply);
    }

    method ProgramAndVerify(firmware: Bytes, key: Bytes) returns (code: nat)
      requires |key| == 8
      modifies this
      ensures Exit(code, log) == FlashSession(device, old(log), firmware, key)
    {
      var erased := EraseCodeFlash(EraseSectors(|firmware|));
      if !erased {
        return 6;
      }
      var programmed := TransferImage(PROGRAM, firmware, key);
      if programmed.None? {
        return 7;
      }
      var verified := TransferImage(VERIFY, firmware, key);
      if verified.None? {
        return 8;
      }
      var restarted := Command(RESTART, [0x01]);
      return if restarted.None? then 9 else 0;
    }

    method Run(connected: bool, mode: Mode, firmware: Bytes) returns (code: nat)
      requires log == []
      modifies this
      ensures Exit(code, log) == RunTool(device, connected, mode, firmware)
    {
      if !SizeOk(firmware) || EraseSectors(|firmware|) > MAX_SECTORS {
        return 2;
      }
      if !connected {
        return 3;
      }
      var uid := DetectAndReadConfig();
      if uid.None? {
        return 4;
      }
      if mode == Preflight {
        return 0;
      }
      var key := SetSessionKey(uid.value);
      if key.None? {
        return 5;
      }
      if mode == SessionTest {
        return 0;
      }
      code := ProgramAndVerify(firmware, key.value);
    }
  }

  method Checksum(b: Bytes) returns (sum: bv8)
    ensures sum == Sum(b)
  {
    sum := 0;
    var i := 0;
    while i < |b|
      invariant 0 <= i <= |b|
      invariant sum == Sum(b[..i])
    {
      assert b[..i + 1][..i] == b[..i];
      sum := sum + b[i];
      i := i + 1;
    }
    assert b[..i] == b;
  }

  method PadToEight(original: Bytes) returns (image: Bytes)
    ensures image == Padded(original)
  {
    image := original;
    while |image| % 8 != 0
      invariant |original| <= |image| <= |Padded(original)|
      invariant image == Padded(original)[..|image|]
      decreases |Padded(original)| - |image|
    {
      assert |image| != |Padded(original)|;
      image := image + [0x00];
    }
    PaddedIsFirstMultiple(original, |image|);
  }

  lemma PaddedIsFirstMultiple(original: Bytes, n: nat)
    requires |original| <= n <= |Padded(original)| && n % 8 == 0
    ensures n == |Padded(original)|
  {
  }

  method EncodeChunk(data: Bytes, key: Bytes) returns (encoded: Bytes)
    requires |key| == 8
    ensures encoded == Encoded(data, key)
  {
    encoded := [];
    var i := 0;
    while i < |data|
      invariant 0 <= i <= |data|
      invariant encoded == Encoded(data, key)[..i]
    {
      encoded := encoded + [data[i] ^ key[i % 8]];
      i := i + 1;
    }
  }
}
