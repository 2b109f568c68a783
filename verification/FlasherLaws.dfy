/**
 What the bootloader client guarantees whatever the device answers, and what a bootloader
 that carries out its commands ends up holding.
 */
module FlasherLaws {
  import opened Wrappers
  import opened Flasher

  // ---------------------------------------------------------------- the plan

  function ChunkPackets(command: bv8, image: Bytes, key: Bytes, offset: nat): seq<Bytes>
    requires |key| == 8
    decreases |image| - offset
  {
    if offset >= |image| then []
    else
      [Packet(command, ChunkPayload(image, key, offset))]
      + ChunkPackets(command, image, key, offset + ChunkLength(image, offset))
  }

  // Everything a complete run sends: A1 A7, then A3, then A4, one A5 per chunk, one A6 per
  // chunk, and A2.
  function IdentifyPlan(): seq<Bytes> {
    [Packet(DETECT, DETECT_PAYLOAD), Packet(READ_CONFIG, CONFIG_PAYLOAD)]
  }

  function KeyPlan(): seq<Bytes> {
    IdentifyPlan() + [Packet(SET_KEY, KeyPayload())]
  }

  function ErasePlan(firmware: Bytes): seq<Bytes> {
    KeyPlan() + [Packet(ERASE, Le32(EraseSectors(|firmware|)))]
  }

  function ProgramPlan(firmware: Bytes, key: Bytes): seq<Bytes>
    requires |key| == 8
  {
    ErasePlan(firmware) + ChunkPackets(PROGRAM, Padded(firmware), key, 0)
  }

  function VerifyPlan(firmware: Bytes, key: Bytes): seq<Bytes>
    requires |key| == 8
  {
    ProgramPlan(firmware, key) + ChunkPackets(VERIFY, Padded(firmware), key, 0)
  }

  function Plan(mode: Mode, firmware: Bytes, key: Bytes): seq<Bytes>
    requires |key| == 8
  {
    match mode
    case Preflight => IdentifyPlan()
    case SessionTest => KeyPlan()
    case Flash => VerifyPlan(firmware, key) + [Packet(RESTART, [0x01])]
  }

  // The device's answer to the last packet of a log.
  function Answer(device: Device, log: seq<Bytes>, command: bv8): Option<Bytes> {
    ParseReply(command, device(log))
  }

  // The key the client derives from the configuration the device reports.
  function ReportedKey(device: Device): (key: Bytes)
    ensures |key| == 8
  {
    var r := Answer(device, IdentifyPlan(), READ_CONFIG);
    if ConfigOk(r) then SessionKey(Uid(r.value)) else [0, 0, 0, 0, 0, 0, 0, 0]
  }

  // ---------------------------------------------------------------- transfers

  // The device acknowledged the packet that follows the first j.
  ghost predicate PacketAcked(device: Device, log: seq<Bytes>, command: bv8, packets: seq<Bytes>, j: nat)
    requires j < |packets|
  {
    Acknowledged(Answer(device, log + packets[..j + 1], command))
  }

  ghost predicate AllAcked(device: Device, log: seq<Bytes>, command: bv8, packets: seq<Bytes>) {
    forall j :: 0 <= j < |packets| ==> PacketAcked(device, log, command, packets, j)
  }

  lemma {:induction false} TransferSends(device: Device, log: seq<Bytes>, command: bv8,
                                         image: Bytes, key: Bytes, offset: nat) returns (n: nat)
    requires |key| == 8
    ensures var packets, t := ChunkPackets(command, image, key, offset),
                              Transfer(device, log, command, image, key, offset);
            n <= |packets| && t.log == log + packets[..n]
            && (t.result.Some? ==> n == |packets| && AllAcked(device, log, command, packets))
    decreases |image| - offset
  {
    if offset >= |image| {
      n := 0;
    } else {
      var next := offset + ChunkLength(image, offset);
      var payload := ChunkPayload(image, key, offset);
      var first, rest := Packet(command, payload), ChunkPackets(command, image, key, next);
      var r := Exchange(device, log, command, payload);
      n := 1;
      if Acknowledged(r.result) {
        var m := TransferSends(device, log + [first], command, image, key, next);
        n := m + 1;
        FirstThenRest(log, first, rest, m);
        if AllAcked(device, log + [first], command, rest) {
          AllAckedFromFirst(device, log, command, first, rest);
        }
      }
    }
  }

  lemma FirstThenRest(log: seq<Bytes>, first: Bytes, rest: seq<Bytes>, m: nat)
    requires m <= |rest|
    ensures log + [first] + rest[..m] == log + ([first] + rest)[..m + 1]
  {
  }

  lemma AllAckedFromFirst(device: Device, log: seq<Bytes>, command: bv8, first: Bytes, rest: seq<Bytes>)
    requires Acknowledged(Answer(device, log + [first], command))
    requires AllAcked(device, log + [first], command, rest)
    ensures AllAcked(device, log, command, [first] + rest)
  {
    var packets := [first] + rest;
    forall j | 0 <= j < |packets|
      ensures PacketAcked(device, log, command, packets, j)
    {
      if j == 0 {
        assert packets[..1] == [first];
      } else {
        assert PacketAcked(device, log + [first], command, rest, j - 1);
        FirstThenRest(log, first, rest, j);
      }
    }
  }

  // ---------------------------------------------------------------- command order

  ghost predicate ChecksPassed(device: Device) {
    && DetectOk(Answer(device, [Packet(DETECT, DETECT_PAYLOAD)], DETECT))
    && ConfigOk(Answer(device, IdentifyPlan(), READ_CONFIG))
    && KeyOk(ReportedKey(device), Answer(device, KeyPlan(), SET_KEY))
  }

  lemma IdentifyFollows(device: Device)
    ensures var d := Identify(device, []);
            d.log <= IdentifyPlan()
            && (d.result.Some? ==>
                  d.log == IdentifyPlan()
                  && DetectOk(Answer(device, [Packet(DETECT, DETECT_PAYLOAD)], DETECT))
                  && ConfigOk(Answer(device, IdentifyPlan(), READ_CONFIG))
                  && SessionKey(d.result.value) == ReportedKey(device))
  {
    var detect := [Packet(DETECT, DETECT_PAYLOAD)];
    assert [] + detect == detect;
    assert detect + [Packet(READ_CONFIG, CONFIG_PAYLOAD)] == IdentifyPlan();
  }

  ghost predicate VerifyAcknowledged(device: Device, firmware: Bytes, key: Bytes)
    requires |key| == 8
  {
    AllAcked(device, ProgramPlan(firmware, key), VERIFY, ChunkPackets(VERIFY, Padded(firmware), key, 0))
  }

  lemma FlashFollows(device: Device, firmware: Bytes, key: Bytes)
    requires |key| == 8
    ensures var e := FlashSession(device, KeyPlan(), firmware, key);
            e.log <= Plan(Flash, firmware, key)
            && KeyPlan() <= e.log
            && (e.code == 0 || e.code == 9 ==>
                  e.log == Plan(Flash, firmware, key) && VerifyAcknowledged(device, firmware, key))
  {
    var image := Padded(firmware);
    var programs, verifies := ChunkPackets(PROGRAM, image, key, 0), ChunkPackets(VERIFY, image, key, 0);
    var n := TransferSends(device, ErasePlan(firmware), PROGRAM, image, key, 0);
    var m := TransferSends(device, ProgramPlan(firmware, key), VERIFY, image, key, 0);
    assert programs[..|programs|] == programs && verifies[..|verifies|] == verifies;
    PlanPrefixes(firmware, key, n, m);
  }

  lemma PlanPrefixes(firmware: Bytes, key: Bytes, n: nat, m: nat)
    requires |key| == 8
    requires n <= |ChunkPackets(PROGRAM, Padded(firmware), key, 0)|
    requires m <= |ChunkPackets(VERIFY, Padded(firmware), key, 0)|
    ensures var plan := Plan(Flash, firmware, key);
            KeyPlan() <= ErasePlan(firmware) <= plan
            && KeyPlan() <= ErasePlan(firmware) + ChunkPackets(PROGRAM, Padded(firmware), key, 0)[..n] <= plan
            && KeyPlan() <= ProgramPlan(firmware, key) + ChunkPackets(VERIFY, Padded(firmware), key, 0)[..m] <= plan
            && KeyPlan() <= plan
  {
    PrefixesOf(KeyPlan(), [Packet(ERASE, Le32(EraseSectors(|firmware|)))],
               ChunkPackets(PROGRAM, Padded(firmware), key, 0), ChunkPackets(VERIFY, Padded(firmware), key, 0),
               [Packet(RESTART, [0x01])], n, m);
  }

  lemma PrefixesOf(keys: seq<Bytes>, erase: seq<Bytes>, x: seq<Bytes>, y: seq<Bytes>, last: seq<Bytes>, n: nat, m: nat)
    requires n <= |x| && m <= |y|
    ensures var plan := keys + erase + x + y + last;
            keys <= keys + erase <= plan
            && keys <= keys + erase + x[..n] <= plan
            && keys <= keys + erase + x + y[..m] <= plan
            && keys <= plan
  {
  }

  lemma KeyFollows(device: Device, d: Sent<Bytes>, k: Sent<Bytes>)
    requires d == Identify(device, []) && d.result.Some?
    requires k == SetKey(device, d.log, d.result.value)
    ensures k.log == KeyPlan()
    ensures k.result.Some? ==> k.result.value == ReportedKey(device) && ChecksPassed(device)
  {
    IdentifyFollows(device);
  }

  // The exit keeps to the plan of its mode.
  ghost predicate KeepsToPlan(device: Device, mode: Mode, firmware: Bytes, e: Exit) {
    var plan := Plan(mode, firmware, ReportedKey(device));
    && e.log <= plan
    && (|e.log| > |KeyPlan()| ==> mode == Flash && ChecksPassed(device))
    && (e.code == 0 || e.code == 9 ==>
          e.log == plan && (mode == Flash ==> VerifyAcknowledged(device, firmware, ReportedKey(device))))
  }

  lemma SessionFollows(device: Device, mode: Mode, firmware: Bytes)
    ensures KeepsToPlan(device, mode, firmware, Session(device, mode, firmware))
  {
    var d := Identify(device, []);
    if d.result.None? {
      UnidentifiedFollows(device, mode, firmware, d);
    } else if mode == Preflight {
      PreflightFollows(device, firmware, d);
    } else {
      KeyedSessionFollows(device, mode, firmware, d, SetKey(device, d.log, d.result.value));
    }
  }

  lemma UnidentifiedFollows(device: Device, mode: Mode, firmware: Bytes, d: Sent<Bytes>)
    requires d == Identify(device, []) && d.result.None?
    ensures KeepsToPlan(device, mode, firmware, Exit(4, d.log))
  {
    IdentifyFollows(device);
    PlansGrow(mode, firmware, ReportedKey(device));
  }

  lemma PreflightFollows(device: Device, firmware: Bytes, d: Sent<Bytes>)
    requires d == Identify(device, []) && d.result.Some?
    ensures KeepsToPlan(device, Preflight, firmware, Exit(0, d.log))
  {
    IdentifyFollows(device);
    PlansGrow(Preflight, firmware, ReportedKey(device));
  }

  lemma KeyedSessionFollows(device: Device, mode: Mode, firmware: Bytes, d: Sent<Bytes>, k: Sent<Bytes>)
    requires mode != Preflight && d == Identify(device, []) && d.result.Some?
    requires k == SetKey(device, d.log, d.result.value)
    ensures KeepsToPlan(device, mode, firmware,
                        if k.result.None? then Exit(5, k.log)
                        else if mode == SessionTest then Exit(0, k.log)
                        else FlashSession(device, k.log, firmware, k.result.value))
  {
    KeyFollows(device, d, k);
    PlansGrow(mode, firmware, ReportedKey(device));
    if k.result.Some? && mode == Flash {
      FlashFollows(device, firmware, ReportedKey(device));
    }
  }

  lemma PlansGrow(mode: Mode, firmware: Bytes, key: Bytes)
    requires |key| == 8
    ensures IdentifyPlan() <= Plan(mode, firmware, key)
    ensures mode != Preflight ==> KeyPlan() <= Plan(mode, firmware, key)
    ensures |IdentifyPlan()| < |KeyPlan()|
  {
  }

  // Whatever the device answers, the packets sent are a prefix of the plan for the mode;
  // nothing past the key exchange is sent unless all three checks passed; and a run that
  // reports success sent the whole plan and had every verify chunk acknowledged.
  lemma CommandsFollowThePlan(device: Device, connected: bool, mode: Mode, firmware: Bytes)
    ensures KeepsToPlan(device, mode, firmware, RunTool(device, connected, mode, firmware))
  {
    SessionFollows(device, mode, firmware);
  }

  // ---------------------------------------------------------------- chunks

  function ChunkCount(image: Bytes): nat {
    (|image| + CHUNK - 1) / CHUNK
  }

  // Packet j carries the 56 bytes from 56 * j on, less only at the end of the image.
  lemma {:induction false} ChunkAt(command: bv8, image: Bytes, key: Bytes, k: nat, j: nat)
    requires |key| == 8 && k <= j < ChunkCount(image)
    ensures CHUNK * j < |image|
    ensures var packets := ChunkPackets(command, image, key, CHUNK * k);
            |packets| == ChunkCount(image) - k
            && packets[j - k] == Packet(command, ChunkPayload(image, key, CHUNK * j))
    decreases j - k
  {
    ChunksFrom(command, image, key, k);
    FirstChunk(command, image, key, k);
    if k < j {
      ChunkAt(command, image, key, k + 1, j);
    }
    PacketOf(ChunkPackets(command, image, key, CHUNK * k), Packet(command, ChunkPayload(image, key, CHUNK * k)),
             if k < j then ChunkPackets(command, image, key, CHUNK * (k + 1)) else [], j - k,
             Packet(command, ChunkPayload(image, key, CHUNK * j)));
  }

  lemma PacketOf(all: seq<Bytes>, first: Bytes, rest: seq<Bytes>, n: nat, p: Bytes)
    requires |all| > 0 && all[0] == first
    requires if n == 0 then p == first else all == [first] + rest && n <= |rest| && rest[n - 1] == p
    ensures n < |all| && all[n] == p
  {
  }

  lemma FirstChunk(command: bv8, image: Bytes, key: Bytes, k: nat)
    requires |key| == 8 && k < ChunkCount(image)
    ensures CHUNK * k < |image|
    ensures ChunkPackets(command, image, key, CHUNK * k) ==
      [Packet(command, ChunkPayload(image, key, CHUNK * k))]
      + (if k + 1 < ChunkCount(image) then ChunkPackets(command, image, key, CHUNK * (k + 1)) else [])
  {
    NextOffset(image, k);
  }

  lemma NextOffset(image: Bytes, k: nat)
    requires k < ChunkCount(image)
    ensures CHUNK * k < |image|
    ensures var next := CHUNK * k + ChunkLength(image, CHUNK * k);
            if k + 1 < ChunkCount(image) then next == CHUNK * (k + 1) else next == |image|
  {
  }

  lemma {:induction false} ChunksFrom(command: bv8, image: Bytes, key: Bytes, k: nat)
    requires |key| == 8 && k <= ChunkCount(image)
    ensures |ChunkPackets(command, image, key, CHUNK * k)| == ChunkCount(image) - k
    decreases ChunkCount(image) - k
  {
    if k < ChunkCount(image) {
      NextOffset(image, k);
      if k + 1 < ChunkCount(image) {
        ChunksFrom(command, image, key, k + 1);
      }
    }
  }

  // The packet is a transfer to address at whose data byte i is value.
  predicate Carries(p: Bytes, command: bv8, at: nat, i: nat, value: bv8) {
    8 + i < |p| <= 3 + MAX_PAYLOAD && p[0] == command && ReadLe32(p[3..7]) == at && p[8 + i] == value
  }

  // Every byte of the image travels in the packet and at the place its address says, and
  // keying each chunk from its own start is keying the image as a whole.
  lemma ChunksTileTheImage(command: bv8, image: Bytes, key: Bytes, address: nat)
    requires |key| == 8 && address < |image| <= 0x1_0000
    ensures var packets, j, i := ChunkPackets(command, image, key, 0), address / CHUNK, address % CHUNK;
            |packets| == ChunkCount(image) && j < |packets|
            && Carries(packets[j], command, address - i, i, image[address] ^ key[address % 8])
  {
    var j, i := address / CHUNK, address % CHUNK;
    ChunkOfAddress(image, address);
    ChunkAt(command, image, key, 0, j);
    ChunkCarries(command, image, key, address, CHUNK * j, i);
  }

  lemma ChunkCarries(command: bv8, image: Bytes, key: Bytes, address: nat, offset: nat, i: nat)
    requires |key| == 8 && address < |image| <= 0x1_0000
    requires offset + i == address && i < ChunkLength(image, offset) && i % 8 == address % 8
    ensures Carries(Packet(command, ChunkPayload(image, key, offset)), command, offset, i,
                    image[address] ^ key[address % 8])
  {
    ChunkBytes(command, image, key, offset, i);
  }

  lemma ChunkOfAddress(image: Bytes, address: nat)
    requires address < |image|
    ensures var j, i := address / CHUNK, address % CHUNK;
            && j < ChunkCount(image) && CHUNK * j + i == address
            && i < ChunkLength(image, CHUNK * j) && i % 8 == address % 8
  {
    var j, i := address / CHUNK, address % CHUNK;
    assert address == CHUNK * j + i;
    assert CHUNK * j == 8 * (7 * j);
    ModEight(7 * j, i);
  }

  lemma ModEight(m: nat, i: nat)
    ensures (8 * m + i) % 8 == i % 8
  {
    assert 8 * m + i == 8 * (m + i / 8) + i % 8;
  }

  lemma ChunkHeader(command: bv8, image: Bytes, key: Bytes, offset: nat)
    requires |key| == 8 && offset < |image| <= 0x1_0000
    ensures var p := Packet(command, ChunkPayload(image, key, offset));
            && |p| == 8 + ChunkLength(image, offset)
            && p[0] == command && ReadLe32(p[3..7]) == offset
            && p[8..] == Encoded(image[offset..offset + ChunkLength(image, offset)], key)
  {
    var p := Packet(command, ChunkPayload(image, key, offset));
    var data := image[offset..offset + ChunkLength(image, offset)];
    Le32RoundTrip(offset);
    assert p[3..7] == Le32(offset);
    assert p[8..] == Encoded(data, key);
  }

  lemma ChunkBytes(command: bv8, image: Bytes, key: Bytes, offset: nat, i: nat)
    requires |key| == 8 && offset < |image| <= 0x1_0000 && i < ChunkLength(image, offset)
    ensures var p := Packet(command, ChunkPayload(image, key, offset));
            && |p| == 8 + ChunkLength(image, offset)
            && p[0] == command && ReadLe32(p[3..7]) == offset
            && p[8 + i] == image[offset + i] ^ key[i % 8]
  {
    var p := Packet(command, ChunkPayload(image, key, offset));
    var data := image[offset..offset + ChunkLength(image, offset)];
    ChunkHeader(command, image, key, offset);
    assert p[8..][i] == data[i] ^ key[i % 8];
  }

  lemma Le32RoundTrip(n: nat)
    requires n < 0x1_0000_0000
    ensures ReadLe32(Le32(n)) == n
  {
    var b := Le32(n);
    var x, y, z := n / 0x100, n / 0x1_0000, n / 0x100_0000;
    ByteValue(n);
    ByteValue(x);
    ByteValue(y);
    ByteValue(z);
    Base256(n);
    assert b[0] == Byte(n) && b[1] == Byte(x) && b[2] == Byte(y) && b[3] == Byte(z);
  }

  lemma ByteValue(n: nat)
    ensures Byte(n) as nat == n % 256
  {
    CastByte(n % 256);
  }

  lemma Base256(n: nat)
    requires n < 0x1_0000_0000
    ensures n == n % 256 + 0x100 * (n / 0x100 % 256) + 0x1_0000 * (n / 0x1_0000 % 256)
                 + 0x100_0000 * (n / 0x100_0000 % 256)
  {
    Shift8(n);
    Shift8(n / 0x100);
    Shift8(n / 0x1_0000);
    ShiftAgain(n);
    SmallModulo(n / 0x100_0000);
  }

  lemma Shift8(n: nat)
    ensures n == n % 256 + 0x100 * (n / 0x100)
  {
  }

  lemma ShiftAgain(n: nat)
    ensures n / 0x100 / 0x100 == n / 0x1_0000
    ensures n / 0x1_0000 / 0x100 == n / 0x100_0000
  {
  }

  // After the first four packets come k chunks under A5, the same k under A6, and A2.
  predicate TransfersFollow(plan: seq<Bytes>, image: Bytes, key: Bytes, j: nat)
    requires |key| == 8 && CHUNK * j < |image|
  {
    var k := ChunkCount(image);
    && |plan| == 2 * k + 5 && j < k
    && plan[4 + j] == Packet(0xA5, ChunkPayload(image, key, CHUNK * j))
    && plan[4 + k + j] == Packet(0xA6, ChunkPayload(image, key, CHUNK * j))
    && plan[4 + 2 * k] == Packet(0xA2, [0x01])
  }

  // The commands of a full run: A1 A7 A3 A4, then k times A5, k times A6, and A2.
  lemma PlanCommands(firmware: Bytes, key: Bytes, j: nat)
    requires |key| == 8 && j < ChunkCount(Padded(firmware))
    ensures CHUNK * j < |Padded(firmware)|
    ensures var plan := Plan(Flash, firmware, key);
            |plan| >= 4 && plan[..4] == ErasePlan(firmware)
            && TransfersFollow(plan, Padded(firmware), key, j)
  {
    PlanIs(firmware, key);
    ErasePlanCommands(firmware);
    FourSections(ErasePlan(firmware), ChunkPackets(PROGRAM, Padded(firmware), key, 0),
                 ChunkPackets(VERIFY, Padded(firmware), key, 0), Padded(firmware), key, j);
  }

  lemma FourSections(head: seq<Bytes>, x: seq<Bytes>, y: seq<Bytes>, image: Bytes, key: Bytes, j: nat)
    requires |key| == 8 && j < ChunkCount(image) && |head| == 4
    requires x == ChunkPackets(PROGRAM, image, key, 0) && y == ChunkPackets(VERIFY, image, key, 0)
    ensures CHUNK * j < |image|
    ensures var all := head + x + y + [Packet(RESTART, [0x01])];
            |all| >= 4 && all[..4] == head && TransfersFollow(all, image, key, j)
  {
    ChunkAt(PROGRAM, image, key, 0, j);
    ChunkAt(VERIFY, image, key, 0, j);
    Sections(head, x, y, Packet(RESTART, [0x01]), j);
  }

  lemma Sections(head: seq<Bytes>, x: seq<Bytes>, y: seq<Bytes>, last: Bytes, j: nat)
    requires |head| == 4 && |x| == |y| && j < |x|
    ensures var all := head + x + y + [last];
            |all| == 2 * |x| + 5 && all[..4] == head
            && all[4 + j] == x[j] && all[4 + |x| + j] == y[j] && all[4 + 2 * |x|] == last
  {
  }

  lemma PlanIs(firmware: Bytes, key: Bytes)
    requires |key| == 8
    ensures Plan(Flash, firmware, key) ==
      ErasePlan(firmware) + ChunkPackets(PROGRAM, Padded(firmware), key, 0)
      + ChunkPackets(VERIFY, Padded(firmware), key, 0) + [Packet(RESTART, [0x01])]
  {
  }

  lemma ErasePlanCommands(firmware: Bytes)
    ensures var plan := ErasePlan(firmware);
            |plan| == 4 && plan[0][0] == 0xA1 && plan[1][0] == 0xA7 && plan[2][0] == 0xA3 && plan[3][0] == 0xA4
  {
  }

  // ---------------------------------------------------------------- replies and keys

  // A reply yields a payload exactly when it is the command, a tag that is not looked at,
  // the payload's length in 16 bits, and the payload, of at most 60 bytes.
  lemma ReplyCarries(command: bv8, d: Bytes, p: Bytes)
    ensures ParseReply(command, Received(d)) == Some(p) <==>
      && |p| <= 60 && |d| == 4 + |p|
      && d[0] == command && d[2] == Byte(|p|) && d[3] == 0 && d[4..] == p
  {
    if 4 <= |d| <= 64 {
      ShortLength(d[2], d[3], |d| - 4);
    }
  }

  lemma ShortLength(low: bv8, high: bv8, n: nat)
    requires n <= 60
    ensures low as nat + 256 * high as nat == n <==> low == Byte(n) && high == 0
  {
    LowByte(low, n);
    ZeroByte(high);
  }

  lemma LowByte(low: bv8, n: nat)
    requires n < 256
    ensures low as nat == n <==> low == Byte(n)
  {
    ByteValue(n);
    SmallModulo(n);
    NatOfByte(low);
  }

  lemma ZeroByte(b: bv8)
    ensures b as nat == 0 <==> b == 0
  {
    NatOfByte(b);
  }

  lemma SumAppend(b: Bytes, x: bv8)
    ensures Sum(b + [x]) == Sum(b) + x
  {
    assert (b + [x])[..|b|] == b;
  }

  lemma {:induction false} SumThenZeros(b: Bytes, n: nat)
    ensures Sum(b + Zeros(n)) == Sum(b)
  {
    if n == 0 {
      assert b + Zeros(0) == b;
    } else {
      SumThenZeros(b, n - 1);
      assert b + Zeros(n) == (b + Zeros(n - 1)) + [0];
      SumAppend(b + Zeros(n - 1), 0);
    }
  }

  // The key reply is one byte of checksum: for the all-zero UID a quite different key is
  // confirmed by exactly the same replies.
  lemma ChecksumDoesNotPinTheKey(r: Option<Bytes>)
    ensures var key, other := SessionKey(Zeros(8)), [CHIP_ID] + Zeros(7);
            key == Zeros(7) + [CHIP_ID] && other != key && (KeyOk(other, r) <==> KeyOk(key, r))
  {
    assert Zeros(8)[..4] == [] + Zeros(4);
    SumThenZeros([], 4);
    assert SessionKey(Zeros(8)) == Zeros(7) + [CHIP_ID];
    assert [] + Zeros(7) == Zeros(7);
    SumThenZeros([], 7);
    SumAppend(Zeros(7), CHIP_ID);
    SumThenZeros([CHIP_ID], 7);
    assert [] + [CHIP_ID] == [CHIP_ID];
    SumAppend([], CHIP_ID);
    assert ([CHIP_ID] + Zeros(7))[0] != (Zeros(7) + [CHIP_ID])[0];
  }
}
