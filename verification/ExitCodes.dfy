/**
 What the bootloader client of tools/iokit_ch55x_flasher.cpp checks, byte by byte, and what
 its exit code says: the first thing that went wrong, for every device.
 */
module ExitCodes {
  import opened Wrappers
  import opened Flasher
  import opened FlasherLaws
  import Boot = BootSession

  // ---------------------------------------------------------------- identity

  lemma Le32Unique(b: Bytes, c: Bytes)
    requires |b| == |c| == 4 && ReadLe32(b) == ReadLe32(c)
    ensures b == c
  {
    var r, m, n, p, x, y, z, w := b[0] as nat, b[1] as nat, b[2] as nat, b[3] as nat,
                                  c[0] as nat, c[1] as nat, c[2] as nat, c[3] as nat;
    ByteRange(b[0], c[0], r, x);
    ByteRange(b[1], c[1], m, y);
    ByteRange(b[2], c[2], n, z);
    ByteRange(b[3], c[3], p, w);
    DigitsUnique(r, m, n, p, x, y, z, w);
    SameFour(b, c);
  }

  lemma SameFour(b: Bytes, c: Bytes)
    requires |b| == |c| == 4 && b[0] == c[0] && b[1] == c[1] && b[2] == c[2] && b[3] == c[3]
    ensures b == c
  {
  }

  lemma ByteRange(a: bv8, b: bv8, m: nat, n: nat)
    requires m == a as nat && n == b as nat
    ensures m < 256 && n < 256 && (m == n <==> a == b)
  {
    NatOfByte(a);
    NatOfByte(b);
  }

  lemma DigitsUnique(a: nat, b: nat, c: nat, d: nat, w: nat, x: nat, y: nat, z: nat)
    requires a < 256 && b < 256 && c < 256 && d < 256 && w < 256 && x < 256 && y < 256 && z < 256
    requires a + 0x100 * b + 0x1_0000 * c + 0x100_0000 * d == w + 0x100 * x + 0x1_0000 * y + 0x100_0000 * z
    ensures a == w && b == x && c == y && d == z
  {
    LowDigit(a, b + 0x100 * c + 0x1_0000 * d, w, x + 0x100 * y + 0x1_0000 * z);
    LowDigit(b, c + 0x100 * d, x, y + 0x100 * z);
    LowDigit(c, d, y, z);
  }

  lemma LowDigit(a: nat, m: nat, w: nat, n: nat)
    requires a < 256 && w < 256 && a + 0x100 * m == w + 0x100 * n
    ensures a == w && m == n
  {
  }

  // The baseline: flags, configuration words and boot version byte by byte. Bytes 12 and 13,
  // the upper half of the third word, and the UID are free.
  predicate Baseline(c: Bytes) {
    && |c| == 26 && c[0] == 0x1F && c[1] == 0x00
    && c[2..6] == [0xFF, 0xFF, 0xFF, 0xFF]
    && c[6..10] == [0x23, 0x00, 0x00, 0x00]
    && c[10] == 0xFF && c[11] == 0x52
    && c[14..18] == [0x00, 0x02, 0x05, 0x00]
  }

  lemma AllOnes()
    ensures ReadLe32([0xFF, 0xFF, 0xFF, 0xFF]) == 0xFFFF_FFFF
    ensures ReadLe32([0x23, 0x00, 0x00, 0x00]) == 0x23
  {
  }

  lemma LowerHalf(b: Bytes)
    requires |b| == 4
    ensures ReadLe32(b) % 0x1_0000 == 0x52FF <==> b[0] == 0xFF && b[1] == 0x52
  {
    var r, m, n, p := b[0] as nat, b[1] as nat, b[2] as nat, b[3] as nat;
    ByteRange(b[0], 0xFF, r, 0xFF);
    ByteRange(b[1], 0x52, m, 0x52);
    LowDigits(r, m, n, p);
  }

  lemma LowDigits(a: nat, b: nat, c: nat, d: nat)
    requires a < 256 && b < 256
    ensures (a + 0x100 * b + 0x1_0000 * c + 0x100_0000 * d) % 0x1_0000 == 0x52FF <==> a == 0xFF && b == 0x52
  {
    DropWords(a + 0x100 * b, c + 0x100 * d);
    if a + 0x100 * b == 0x52FF {
      LowDigit(a, b, 0xFF, 0x52);
    }
  }

  lemma DropWords(low: nat, high: nat)
    requires low < 0x1_0000
    ensures (low + 0x1_0000 * high) % 0x1_0000 == low
  {
  }

  // A configuration reply is accepted exactly when it is the baseline.
  lemma ConfigIsBaseline(c: Bytes)
    ensures ConfigOk(Some(c)) <==> Baseline(c)
  {
    if |c| == 26 {
      AllOnes();
      WordIs(c[2..6], [0xFF, 0xFF, 0xFF, 0xFF]);
      WordIs(c[6..10], [0x23, 0x00, 0x00, 0x00]);
      LowerHalf(c[10..14]);
    }
  }

  lemma WordIs(b: Bytes, c: Bytes)
    requires |b| == |c| == 4
    ensures ReadLe32(b) == ReadLe32(c) <==> b == c
  {
    if ReadLe32(b) == ReadLe32(c) {
      Le32Unique(b, c);
    }
  }

  // The checksum of no bytes is 0, of one byte more that byte more.
  lemma SumAddsUp(b: Bytes, x: bv8)
    ensures Sum([]) == 0 && Sum(b + [x]) == Sum(b) + x
  {
    SumAppend(b, x);
  }

  // Every byte of the session key is the checksum of the first four UID bytes; the last has
  // the chip ID added.
  lemma KeyIsDerived(uid: Bytes, first: Bytes, i: nat)
    requires |uid| == 8 && i < 8 && |first| == 4 && forall j :: 0 <= j < 4 ==> first[j] == uid[j]
    ensures SessionKey(uid)[i] == if i == 7 then Sum(first) + 0x52 else Sum(first)
  {
    assert uid[..4] == first;
  }

  // As few sectors as hold the image, but at least 8.
  lemma FewestSectors(size: nat)
    ensures EraseSectors(size) >= 8 && 1024 * EraseSectors(size) >= size
    ensures EraseSectors(size) > 8 ==> 1024 * (EraseSectors(size) - 1) < size
  {
  }

  // ---------------------------------------------------------------- on the wire

  // The first four packets of a session, byte by byte.
  lemma OpeningPackets(firmware: Bytes)
    ensures var plan := ErasePlan(firmware);
            |plan| == 4
            && plan[0] == [0xA1, 0x12, 0x00] + DetectText()
            && plan[1] == [0xA7, 0x02, 0x00, 0x1F, 0x00]
            && plan[2] == [0xA3, 0x1E, 0x00] + Zeros(30)
            && plan[3] == [0xA4, 0x04, 0x00] + Le32(EraseSectors(|firmware|))
  {
    Lengths();
    DetectSays();
    assert KeyPayload() == Zeros(30);
  }

  // R, 0x11, then "MCU ISP & WCH.CN".
  function DetectText(): Bytes {
    [0x52, 0x11] + [0x4D, 0x43, 0x55, 0x20] + [0x49, 0x53, 0x50, 0x20] + [0x26, 0x20]
    + [0x57, 0x43, 0x48, 0x2E] + [0x43, 0x4E]
  }

  lemma DetectSays()
    ensures DETECT_PAYLOAD == DetectText()
  {
  }

  lemma Lengths()
    ensures Byte(0x12) == 0x12 && Byte(2) == 2 && Byte(0x1E) == 0x1E && Byte(4) == 4 && Byte(1) == 1 && Byte(0) == 0
  {
    LowByte(0x12, 0x12);
    LowByte(2, 2);
    LowByte(0x1E, 0x1E);
    LowByte(4, 4);
    LowByte(1, 1);
    LowByte(0, 0);
  }

  // The last packet of a complete run.
  lemma RestartPacket(firmware: Bytes, key: Bytes)
    requires |key| == 8
    ensures var plan := Plan(Flash, firmware, key);
            plan[..|plan| - 1] == VerifyPlan(firmware, key) && plan[|plan| - 1] == [0xA2, 0x01, 0x00, 0x01]
  {
    Lengths();
  }

  // A chunk packet is its command, its length in 16 bits, 32 bits of address, a padding byte
  // that is 0, and the data.
  lemma ChunkFraming(command: bv8, image: Bytes, key: Bytes, offset: nat)
    requires |key| == 8 && offset < |image| <= 0x1_0000
    ensures var p, n := Packet(command, ChunkPayload(image, key, offset)), ChunkLength(image, offset);
            |p| == 8 + n <= 64 && p[0] == command && p[1] == Byte(n + 5) && p[2] == 0 && p[7] == 0
            && ReadLe32(p[3..7]) == offset
  {
    ChunkHeader(command, image, key, offset);
    NoHighByte(ChunkLength(image, offset) + 5);
  }

  lemma NoHighByte(n: nat)
    requires n < 256
    ensures Byte(n / 256) == 0
  {
  }

  // A command is sent exactly when its packet fits a 64-byte transfer.
  lemma PacketsFitATransfer(device: Device, log: seq<Bytes>, command: bv8, payload: Bytes)
    ensures var after := Exchange(device, log, command, payload).log;
            if 3 + |payload| <= 64 then |after| == |log| + 1 && after[..|log|] == log && |after[|log|]| == 3 + |payload|
            else after == log
  {
  }

  // ---------------------------------------------------------------- what is accepted

  // The second byte of a reply is not looked at.
  lemma AcknowledgedExactly(command: bv8, d: Bytes)
    ensures Acknowledged(ParseReply(command, Received(d))) <==>
      |d| == 6 && d[0] == command && d[2..] == [0x02, 0x00, 0x00, 0x00]
  {
    PairReply(command, d, 0x00, 0x00);
  }

  lemma DetectedExactly(d: Bytes)
    ensures DetectOk(ParseReply(0xA1, Received(d))) <==> |d| == 6 && d[0] == 0xA1 && d[2..] == [0x02, 0x00, 0x52, 0x11]
  {
    PairReply(0xA1, d, 0x52, 0x11);
  }

  lemma KeyAcceptedExactly(key: Bytes, d: Bytes)
    ensures KeyOk(key, ParseReply(0xA3, Received(d))) <==>
      |d| == 6 && d[0] == 0xA3 && d[2..] == [0x02, 0x00, Sum(key), 0x00]
  {
    PairReply(0xA3, d, Sum(key), 0x00);
  }

  lemma PairReply(command: bv8, d: Bytes, x: bv8, y: bv8)
    ensures ParseReply(command, Received(d)) == Some([x, y]) <==>
      |d| == 6 && d[0] == command && d[2..] == [0x02, 0x00, x, y]
  {
    ReplyCarries(command, d, [x, y]);
    Lengths();
    if |d| == 6 {
      assert d[2..] == [d[2], d[3], d[4], d[5]] && d[4..] == [d[4], d[5]];
    }
  }

  lemma ConfigAcceptedExactly(d: Bytes)
    ensures ConfigOk(ParseReply(0xA7, Received(d))) <==>
      |d| == 30 && d[0] == 0xA7 && d[2] == 0x1A && d[3] == 0x00 && Baseline(d[4..])
  {
    if ParseReply(0xA7, Received(d)).Some? {
      ReplyCarries(0xA7, d, ParseReply(0xA7, Received(d)).value);
      ConfigIsBaseline(d[4..]);
    } else if |d| == 30 {
      ReplyCarries(0xA7, d, d[4..]);
    }
    ConfigLength();
  }

  lemma ConfigLength()
    ensures Byte(26) == 0x1A
  {
  }

  // The key comes from bytes 22 to 25 of the configuration reply, where the UID starts.
  lemma KeyComesFromTheReply(device: Device, d: Bytes, first: Bytes, i: nat)
    requires device(IdentifyPlan()) == Received(d) && ConfigOk(ParseReply(READ_CONFIG, Received(d)))
    requires i < 8 && |first| == 4 && |d| == 30 && forall j :: 0 <= j < 4 ==> first[j] == d[22 + j]
    ensures ReportedKey(device)[i] == if i == 7 then Sum(first) + 0x52 else Sum(first)
  {
    KeyIsDerived(d[4..][18..26], first, i);
  }

  // ---------------------------------------------------------------- exit codes

  ghost predicate Identified(device: Device) {
    && DetectOk(Answer(device, [Packet(DETECT, DETECT_PAYLOAD)], DETECT))
    && ConfigOk(Answer(device, IdentifyPlan(), READ_CONFIG))
  }

  ghost predicate Keyed(device: Device) {
    KeyOk(ReportedKey(device), Answer(device, KeyPlan(), SET_KEY))
  }

  ghost predicate Erased(device: Device, firmware: Bytes) {
    Acknowledged(Answer(device, ErasePlan(firmware), ERASE))
  }

  ghost predicate Programmed(device: Device, firmware: Bytes) {
    AllAcked(device, ErasePlan(firmware), PROGRAM, ChunkPackets(PROGRAM, Padded(firmware), ReportedKey(device), 0))
  }

  ghost predicate Verified(device: Device, firmware: Bytes) {
    AllAcked(device, ProgramPlan(firmware, ReportedKey(device)), VERIFY,
             ChunkPackets(VERIFY, Padded(firmware), ReportedKey(device), 0))
  }

  ghost predicate Restarted(device: Device, firmware: Bytes) {
    Answer(device, Plan(Flash, firmware, ReportedKey(device)), RESTART).Some?
  }

  // The first check that fails, in the order of the session; 0 when all that the mode
  // calls for pass. Detection is all of a preflight, the key all of a session test.
  ghost function ExpectedCode(device: Device, connected: bool, mode: Mode, firmware: Bytes): nat {
    if !(1 <= |firmware| <= 0x3800) then 2
    else if !connected then 3
    else if !Identified(device) then 4
    else if mode == Preflight then 0
    else if !Keyed(device) then 5
    else if mode == SessionTest then 0
    else if !Erased(device, firmware) then 6
    else if !Programmed(device, firmware) then 7
    else if !Verified(device, firmware) then 8
    else if !Restarted(device, firmware) then 9
    else 0
  }

  lemma TransferDecides(device: Device, log: seq<Bytes>, command: bv8, image: Bytes, key: Bytes)
    requires |key| == 8
    ensures var t, packets := Transfer(device, log, command, image, key, 0), ChunkPackets(command, image, key, 0);
            t.result.Some? <==> AllAcked(device, log, command, packets)
  {
    var packets := ChunkPackets(command, image, key, 0);
    var n := TransferSends(device, log, command, image, key, 0);
    if AllAcked(device, log, command, packets) {
      Boot.AckedTransferSucceeds(device, log, command, image, key, 0);
    }
  }

  lemma TransferComplete(device: Device, log: seq<Bytes>, command: bv8, image: Bytes, key: Bytes)
    requires |key| == 8 && AllAcked(device, log, command, ChunkPackets(command, image, key, 0))
    ensures Transfer(device, log, command, image, key, 0) == Sent(log + ChunkPackets(command, image, key, 0), Some(()))
  {
    Boot.AckedTransferSucceeds(device, log, command, image, key, 0);
  }

  lemma FlashCode(device: Device, firmware: Bytes, key: Bytes)
    requires key == ReportedKey(device)
    ensures FlashSession(device, KeyPlan(), firmware, key).code ==
      if !Erased(device, firmware) then 6
      else if !Programmed(device, firmware) then 7
      else if !Verified(device, firmware) then 8
      else if !Restarted(device, firmware) then 9
      else 0
  {
    var image := Padded(firmware);
    TransferDecides(device, ErasePlan(firmware), PROGRAM, image, key);
    TransferDecides(device, ProgramPlan(firmware, key), VERIFY, image, key);
    if Programmed(device, firmware) {
      TransferComplete(device, ErasePlan(firmware), PROGRAM, image, key);
    }
    if Verified(device, firmware) {
      TransferComplete(device, ProgramPlan(firmware, key), VERIFY, image, key);
    }
  }

  lemma IdentifyDecides(device: Device)
    ensures Identify(device, []).result.Some? <==> Identified(device)
    ensures Identified(device) ==>
      Identify(device, []).log == IdentifyPlan() && SessionKey(Identify(device, []).result.value) == ReportedKey(device)
  {
    var detect := [Packet(DETECT, DETECT_PAYLOAD)];
    assert [] + detect == detect;
    assert detect + [Packet(READ_CONFIG, CONFIG_PAYLOAD)] == IdentifyPlan();
    IdentifyFollows(device);
  }

  lemma SizesDecide(firmware: Bytes)
    ensures !SizeOk(firmware) || EraseSectors(|firmware|) > MAX_SECTORS <==> !(1 <= |firmware| <= 0x3800)
  {
  }

  // For every device, mode and image the exit code names the first check that failed.
  lemma ExitCodeIsExact(device: Device, connected: bool, mode: Mode, firmware: Bytes)
    ensures RunTool(device, connected, mode, firmware).code == ExpectedCode(device, connected, mode, firmware)
  {
    SizesDecide(firmware);
    SessionCode(device, mode, firmware);
  }

  lemma SessionCode(device: Device, mode: Mode, firmware: Bytes)
    ensures Session(device, mode, firmware).code ==
      if !Identified(device) then 4
      else if mode == Preflight then 0
      else if !Keyed(device) then 5
      else if mode == SessionTest then 0
      else FlashSession(device, KeyPlan(), firmware, ReportedKey(device)).code
    ensures Identified(device) && Keyed(device) ==>
      FlashSession(device, KeyPlan(), firmware, ReportedKey(device)).code ==
      if !Erased(device, firmware) then 6
      else if !Programmed(device, firmware) then 7
      else if !Verified(device, firmware) then 8
      else if !Restarted(device, firmware) then 9
      else 0
  {
    IdentifyDecides(device);
    FlashCode(device, firmware, ReportedKey(device));
  }
}
