/**
 What the bootloader client leaves in flash: an abstract bootloader that carries out the
 packets it is sent, and one that only answers verify packets truthfully.
 */
module FlashRoundTrip {
  import opened Wrappers
  import opened Flasher
  import opened FlasherLaws

  // ---------------------------------------------------------------- the abstract bootloader

  // `own` is the session key the bootloader derives, `key` the one in force.
  datatype Boot = Boot(uid: Bytes, own: Bytes, key: Bytes, flash: Bytes)

  ghost predicate ValidBoot(b: Boot) {
    |b.uid| == |b.own| == |b.key| == 8 && |b.flash| >= MAX_CODE_SIZE
  }

  function Erased(flash: Bytes, n: nat): (r: Bytes)
    ensures |r| == |flash|
  {
    seq(|flash|, i requires 0 <= i < |flash| => if i < n then 0xFF else flash[i])
  }

  // Programming can only clear bits.
  function Written(flash: Bytes, at: nat, data: Bytes): (r: Bytes)
    ensures |r| == |flash|
  {
    seq(|flash|, i requires 0 <= i < |flash| => if at <= i < at + |data| then flash[i] & data[i - at] else flash[i])
  }

  function Execute(b: Boot, p: Bytes): (r: Boot)
    requires ValidBoot(b)
    ensures ValidBoot(r) && |r.flash| == |b.flash|
  {
    if |p| >= 3 && p[0] == SET_KEY then b.(key := b.own)
    else if |p| >= 7 && p[0] == ERASE then b.(flash := Erased(b.flash, SECTOR_SIZE * ReadLe32(p[3..7])))
    else if |p| >= 8 && p[0] == PROGRAM then b.(flash := Written(b.flash, ReadLe32(p[3..7]), Encoded(p[8..], b.key)))
    else b
  }

  function ExecuteAll(b: Boot, packets: seq<Bytes>): (r: Boot)
    requires ValidBoot(b)
    ensures ValidBoot(r) && |r.flash| == |b.flash|
    decreases packets
  {
    if packets == [] then b else ExecuteAll(Execute(b, packets[0]), packets[1..])
  }

  lemma {:induction false} ExecuteConcat(b: Boot, x: seq<Bytes>, y: seq<Bytes>)
    requires ValidBoot(b)
    ensures ExecuteAll(b, x + y) == ExecuteAll(ExecuteAll(b, x), y)
    decreases x
  {
    if x == [] {
      assert x + y == y;
    } else {
      assert (x + y)[1..] == x[1..] + y;
      ExecuteConcat(Execute(b, x[0]), x[1..], y);
    }
  }

  // ---------------------------------------------------------------- nothing beyond the limit

  // The packet leaves flash from limit on alone.
  ghost predicate Confined(p: Bytes, limit: nat) {
    && (|p| >= 7 && p[0] == ERASE ==> SECTOR_SIZE * ReadLe32(p[3..7]) <= limit)
    && (|p| >= 8 && p[0] == PROGRAM ==> ReadLe32(p[3..7]) + |p| - 8 <= limit)
  }

  ghost predicate AllConfined(packets: seq<Bytes>, limit: nat) {
    forall j :: 0 <= j < |packets| ==> Confined(packets[j], limit)
  }

  lemma {:induction false} ConfinedPacketsKeepFlash(b: Boot, packets: seq<Bytes>, limit: nat)
    requires ValidBoot(b) && AllConfined(packets, limit)
    ensures var r := ExecuteAll(b, packets);
            forall i :: limit <= i < |b.flash| ==> r.flash[i] == b.flash[i]
    decreases packets
  {
    if packets != [] {
      assert Confined(packets[0], limit);
      ConfinedPacketKeepsFlash(b, packets[0], limit);
      assert AllConfined(packets[1..], limit) by {
        forall j | 0 <= j < |packets[1..]| ensures Confined(packets[1..][j], limit) {
          assert packets[1..][j] == packets[j + 1];
        }
      }
      ConfinedPacketsKeepFlash(Execute(b, packets[0]), packets[1..], limit);
    }
  }

  lemma ConfinedPacketKeepsFlash(b: Boot, p: Bytes, limit: nat)
    requires ValidBoot(b) && Confined(p, limit)
    ensures forall i :: limit <= i < |b.flash| ==> Execute(b, p).flash[i] == b.flash[i]
  {
  }

  function EraseEnd(firmware: Bytes): nat {
    SECTOR_SIZE * EraseSectors(|firmware|)
  }

  // The erased sectors cover the padded image and stop at or before the bootloader.
  lemma EraseCoversTheImage(firmware: Bytes)
    requires SizeOk(firmware)
    ensures MIN_SECTORS <= EraseSectors(|firmware|) <= MAX_SECTORS
    ensures |Padded(firmware)| <= EraseEnd(firmware) <= MAX_CODE_SIZE
  {
  }

  lemma ConcatConfined(x: seq<Bytes>, y: seq<Bytes>, limit: nat)
    requires AllConfined(x, limit) && AllConfined(y, limit)
    ensures AllConfined(x + y, limit)
  {
  }

  lemma {:induction false} ChunksConfined(command: bv8, image: Bytes, key: Bytes, offset: nat, limit: nat)
    requires |key| == 8 && |image| <= limit && |image| <= 0x1_0000 && command != ERASE
    ensures AllConfined(ChunkPackets(command, image, key, offset), limit)
    decreases |image| - offset
  {
    if offset < |image| {
      var next := offset + ChunkLength(image, offset);
      var first, rest := Packet(command, ChunkPayload(image, key, offset)), ChunkPackets(command, image, key, next);
      ChunkHeader(command, image, key, offset);
      assert AllConfined([first], limit);
      ChunksConfined(command, image, key, next, limit);
      ConcatConfined([first], rest, limit);
    }
  }

  lemma EraseConfined(firmware: Bytes)
    requires SizeOk(firmware)
    ensures AllConfined(ErasePlan(firmware), EraseEnd(firmware))
  {
    EraseCoversTheImage(firmware);
    Le32RoundTrip(EraseSectors(|firmware|));
    var erase := Packet(ERASE, Le32(EraseSectors(|firmware|)));
    assert erase[3..7] == Le32(EraseSectors(|firmware|));
    assert AllConfined(KeyPlan(), EraseEnd(firmware)) && AllConfined([erase], EraseEnd(firmware));
    ConcatConfined(KeyPlan(), [erase], EraseEnd(firmware));
  }

  lemma FlashPlanConfined(firmware: Bytes, key: Bytes)
    requires SizeOk(firmware) && |key| == 8
    ensures AllConfined(Plan(Flash, firmware, key), EraseEnd(firmware))
  {
    var limit, program, verify := EraseEnd(firmware), ChunkPackets(PROGRAM, Padded(firmware), key, 0),
                                  ChunkPackets(VERIFY, Padded(firmware), key, 0);
    EraseCoversTheImage(firmware);
    EraseConfined(firmware);
    ChunksConfined(PROGRAM, Padded(firmware), key, 0, limit);
    ChunksConfined(VERIFY, Padded(firmware), key, 0, limit);
    ConcatConfined(ErasePlan(firmware), program, limit);
    ConcatConfined(ProgramPlan(firmware, key), verify, limit);
    ConcatConfined(VerifyPlan(firmware, key), [Packet(RESTART, [0x01])], limit);
  }

  lemma PlanConfined(mode: Mode, firmware: Bytes, key: Bytes)
    requires SizeOk(firmware) && |key| == 8
    ensures AllConfined(Plan(mode, firmware, key), if mode == Flash then EraseEnd(firmware) else 0)
  {
    if mode == Flash {
      FlashPlanConfined(firmware, key);
    }
  }

  // Whatever the device answers and wherever the run stops, flash beyond the erased
  // sectors, and so the bootloader from 0x3800 on, is as before; in the two dry modes all
  // of it is.
  lemma FlashBeyondTheImageIsUntouched(device: Device, connected: bool, mode: Mode, firmware: Bytes,
                                       b: Boot, i: nat)
    requires ValidBoot(b) && i < |b.flash|
    requires mode == Flash && SizeOk(firmware) ==> i >= EraseEnd(firmware)
    ensures ExecuteAll(b, RunTool(device, connected, mode, firmware).log).flash[i] == b.flash[i]
    ensures SizeOk(firmware) ==> EraseEnd(firmware) <= MAX_CODE_SIZE
  {
    var e, key := RunTool(device, connected, mode, firmware), ReportedKey(device);
    if SizeOk(firmware) {
      var limit := if mode == Flash then EraseEnd(firmware) else 0;
      EraseCoversTheImage(firmware);
      PlanConfined(mode, firmware, key);
      CommandsFollowThePlan(device, connected, mode, firmware);
      assert AllConfined(e.log, limit) by {
        forall j | 0 <= j < |e.log| ensures Confined(e.log[j], limit) {
          assert e.log[j] == Plan(mode, firmware, key)[j];
        }
      }
      ConfinedPacketsKeepFlash(b, e.log, limit);
    }
  }

  // ---------------------------------------------------------------- the round trip

  lemma DecodeEncoded(data: Bytes, key: Bytes)
    requires |key| == 8
    ensures Encoded(Encoded(data, key), key) == data
  {
    forall i | 0 <= i < |data| ensures Encoded(Encoded(data, key), key)[i] == data[i] {
      XorTwice(data[i], key[i % 8]);
    }
  }

  lemma XorTwice(x: bv8, k: bv8)
    ensures (x ^ k) ^ k == x
  {
  }

  lemma {:induction false} ProgrammedFlash(b: Boot, image: Bytes, offset: nat)
    requires ValidBoot(b) && offset <= |image| <= 0x1_0000
    ensures ExecuteAll(b, ChunkPackets(PROGRAM, image, b.key, offset))
         == b.(flash := Written(b.flash, offset, image[offset..]))
    decreases |image| - offset
  {
    if offset == |image| {
      assert Written(b.flash, offset, image[offset..]) == b.flash;
    } else {
      var next := offset + ChunkLength(image, offset);
      var first, rest := Packet(PROGRAM, ChunkPayload(image, b.key, offset)), ChunkPackets(PROGRAM, image, b.key, next);
      var data, tail := image[offset..next], image[next..];
      ExecuteProgram(b, image, offset);
      ProgrammedFlash(b.(flash := Written(b.flash, offset, data)), image, next);
      assert data + tail == image[offset..];
      FirstPacket(b, first, rest, offset, data, tail);
    }
  }

  lemma FirstPacket(b: Boot, first: Bytes, rest: seq<Bytes>, at: nat, data: Bytes, tail: Bytes)
    requires ValidBoot(b)
    requires var after := b.(flash := Written(b.flash, at, data));
             Execute(b, first) == after
             && ExecuteAll(after, rest) == after.(flash := Written(after.flash, at + |data|, tail))
    ensures ExecuteAll(b, [first] + rest) == b.(flash := Written(b.flash, at, data + tail))
  {
    assert ([first] + rest)[1..] == rest;
    WrittenTwice(b.flash, at, data, tail);
  }

  lemma ExecuteProgram(b: Boot, image: Bytes, offset: nat)
    requires ValidBoot(b) && offset < |image| <= 0x1_0000
    ensures Execute(b, Packet(PROGRAM, ChunkPayload(image, b.key, offset)))
         == b.(flash := Written(b.flash, offset, image[offset..offset + ChunkLength(image, offset)]))
  {
    ChunkHeader(PROGRAM, image, b.key, offset);
    DecodeEncoded(image[offset..offset + ChunkLength(image, offset)], b.key);
  }

  lemma WrittenTwice(flash: Bytes, at: nat, x: Bytes, y: Bytes)
    ensures Written(Written(flash, at, x), at + |x|, y) == Written(flash, at, x + y)
  {
  }

  lemma {:induction false} ChunkCommands(command: bv8, image: Bytes, key: Bytes, offset: nat)
    requires |key| == 8
    ensures forall p :: p in ChunkPackets(command, image, key, offset) ==> |p| >= 3 && p[0] == command
    decreases |image| - offset
  {
    if offset < |image| {
      ChunkCommands(command, image, key, offset + ChunkLength(image, offset));
    }
  }

  lemma {:induction false} VerifyPacketsChangeNothing(b: Boot, packets: seq<Bytes>)
    requires ValidBoot(b) && forall p :: p in packets ==> |p| >= 3 && p[0] == VERIFY
    ensures ExecuteAll(b, packets) == b
    decreases packets
  {
    if packets != [] {
      assert packets[0] in packets;
      VerifyPacketsChangeNothing(b, packets[1..]);
    }
  }

  lemma VerifyingChangesNothing(b: Boot, image: Bytes, key: Bytes)
    requires ValidBoot(b) && |key| == 8
    ensures ExecuteAll(b, ChunkPackets(VERIFY, image, key, 0)) == b
  {
    ChunkCommands(VERIFY, image, key, 0);
    VerifyPacketsChangeNothing(b, ChunkPackets(VERIFY, image, key, 0));
  }

  // What a bootloader with one key decodes when the client encoded with another.
  function Skewed(image: Bytes, mine: Bytes, own: Bytes): (r: Bytes)
    requires |mine| == |own| == 8
    ensures |r| == |image|
  {
    seq(|image|, i requires 0 <= i < |image| => (image[i] ^ mine[i % 8]) ^ own[i % 8])
  }

  lemma XorCancels(f: bv8, x: bv8, k: bv8, l: bv8)
    requires f == (x ^ k) ^ l
    ensures f == x <==> k == l
  {
  }

  lemma SkewDecides(image: Bytes, mine: Bytes, own: Bytes)
    requires |mine| == |own| == 8 && |image| >= 8
    ensures Skewed(image, mine, own) == image <==> mine == own
  {
    var r := Skewed(image, mine, own);
    forall i | 0 <= i < |image| ensures r[i] == image[i] <==> mine[i % 8] == own[i % 8] {
      SkewAt(image, mine, own, i);
    }
    KeyDecides(image, r, mine, own);
  }

  lemma SkewAt(image: Bytes, mine: Bytes, own: Bytes, i: nat)
    requires |mine| == |own| == 8 && i < |image|
    ensures Skewed(image, mine, own)[i] == image[i] <==> mine[i % 8] == own[i % 8]
  {
    SkewedByte(image, mine, own, i);
    XorCancels(Skewed(image, mine, own)[i], image[i], mine[i % 8], own[i % 8]);
  }

  lemma SkewedByte(image: Bytes, mine: Bytes, own: Bytes, i: nat)
    requires |mine| == |own| == 8 && i < |image|
    ensures Skewed(image, mine, own)[i] == (image[i] ^ mine[i % 8]) ^ own[i % 8]
  {
  }

  // The image and its copy in flash agree at each address exactly where the keys do.
  lemma KeyDecides(image: Bytes, flash: Bytes, mine: Bytes, key: Bytes)
    requires |mine| == 8 && |key| == 8 && 8 <= |image| <= |flash|
    requires forall a :: 0 <= a < |image| ==> (flash[a] == image[a] <==> mine[a % 8] == key[a % 8])
    ensures flash[..|image|] == image <==> key == mine
  {
    if flash[..|image|] == image {
      forall r | 0 <= r < 8 ensures key[r] == mine[r] {
        assert flash[..|image|][r] == image[r] && r % 8 == r;
      }
    }
  }

  lemma SkewedChunk(image: Bytes, mine: Bytes, own: Bytes, offset: nat, n: nat)
    requires |mine| == |own| == 8 && offset % 8 == 0 && offset + n <= |image|
    ensures Encoded(image[offset..offset + n], mine) == Encoded(Skewed(image, mine, own)[offset..offset + n], own)
  {
    var x, y := image[offset..offset + n], Skewed(image, mine, own)[offset..offset + n];
    forall i | 0 <= i < n ensures Encoded(x, mine)[i] == Encoded(y, own)[i] {
      SkewedChunkByte(image, mine, own, offset, i, x, y);
    }
  }

  lemma SkewedChunkByte(image: Bytes, mine: Bytes, own: Bytes, offset: nat, i: nat, x: Bytes, y: Bytes)
    requires |mine| == |own| == 8 && offset % 8 == 0 && offset + i < |image| && i < |x| == |y|
    requires x[i] == image[offset + i] && y[i] == Skewed(image, mine, own)[offset + i]
    ensures Encoded(x, mine)[i] == Encoded(y, own)[i]
  {
    SameResidue(offset, i);
    SkewedTo(image, mine, own, offset + i, i, x, y, i % 8);
    EncodedAlike(mine, own, i, x, y, i % 8);
  }

  lemma SkewedTo(image: Bytes, mine: Bytes, own: Bytes, at: nat, i: nat, x: Bytes, y: Bytes, r: nat)
    requires |mine| == |own| == 8 && at < |image| && i < |x| == |y| && r == i % 8 == at % 8
    requires x[i] == image[at] && y[i] == Skewed(image, mine, own)[at]
    ensures y[i] == (x[i] ^ mine[r]) ^ own[r]
  {
    SkewedAtResidue(image, mine, own, at, r);
  }

  lemma EncodedAlike(mine: Bytes, own: Bytes, i: nat, x: Bytes, y: Bytes, r: nat)
    requires |mine| == |own| == 8 && i < |x| == |y| && r == i % 8
    requires y[i] == (x[i] ^ mine[r]) ^ own[r]
    ensures Encoded(x, mine)[i] == Encoded(y, own)[i]
  {
    EncodedAtResidue(x, mine, i, r);
    EncodedAtResidue(y, own, i, r);
    XorTwice(x[i] ^ mine[r], own[r]);
  }

  lemma SkewedAtResidue(image: Bytes, mine: Bytes, own: Bytes, at: nat, r: nat)
    requires |mine| == |own| == 8 && at < |image| && r == at % 8
    ensures Skewed(image, mine, own)[at] == (image[at] ^ mine[r]) ^ own[r]
  {
  }

  lemma EncodedAtResidue(data: Bytes, key: Bytes, i: nat, r: nat)
    requires |key| == 8 && i < |data| && r == i % 8
    ensures Encoded(data, key)[i] == data[i] ^ key[r]
  {
  }

  lemma SameResidue(offset: nat, i: nat)
    requires offset % 8 == 0
    ensures (offset + i) % 8 == i % 8
  {
    assert offset == 8 * (offset / 8);
    ModEight(offset / 8, i);
  }

  // The packets for the image under the client's key are those for the skewed image under
  // the bootloader's own.
  lemma {:induction false} SkewedPackets(command: bv8, image: Bytes, mine: Bytes, own: Bytes, offset: nat)
    requires |mine| == |own| == 8 && (offset % 8 == 0 || offset >= |image|)
    ensures ChunkPackets(command, image, mine, offset) ==
      ChunkPackets(command, Skewed(image, mine, own), own, offset)
    decreases |image| - offset
  {
    if offset < |image| {
      SkewedPayload(image, mine, own, offset);
      NextOffset(image, offset);
      SkewedPackets(command, image, mine, own, offset + ChunkLength(image, offset));
    }
  }

  lemma SkewedPayload(image: Bytes, mine: Bytes, own: Bytes, offset: nat)
    requires |mine| == |own| == 8 && offset % 8 == 0 && offset < |image|
    ensures ChunkPayload(image, mine, offset) == ChunkPayload(Skewed(image, mine, own), own, offset)
  {
    SkewedChunk(image, mine, own, offset, ChunkLength(image, offset));
  }

  lemma NextOffset(image: Bytes, offset: nat)
    requires offset % 8 == 0 && offset < |image|
    ensures var next := offset + ChunkLength(image, offset);
            next % 8 == 0 || next >= |image|
  {
  }

  function Filler(n: nat): Bytes {
    seq(n, _ => 0xFF)
  }

  // The image, erased bytes to the end of the last erased sector, the old contents.
  function FlashedImage(firmware: Bytes, image: Bytes, before: Bytes): Bytes
    requires SizeOk(firmware) && |image| == |Padded(firmware)| && |before| >= MAX_CODE_SIZE
  {
    EraseCoversTheImage(firmware);
    image + Filler(EraseEnd(firmware) - |image|) + before[EraseEnd(firmware)..]
  }

  lemma WrittenOverErased(firmware: Bytes, image: Bytes, before: Bytes)
    requires SizeOk(firmware) && |image| == |Padded(firmware)| && |before| >= MAX_CODE_SIZE
    ensures Written(Erased(before, EraseEnd(firmware)), 0, image) == FlashedImage(firmware, image, before)
  {
    EraseCoversTheImage(firmware);
    var w, f := Written(Erased(before, EraseEnd(firmware)), 0, image), FlashedImage(firmware, image, before);
    forall i | 0 <= i < |before| ensures w[i] == f[i] {
      if i < |image| {
        ClearFromOnes(image[i]);
      }
    }
  }

  lemma ClearFromOnes(x: bv8)
    ensures 0xFF & x == x
  {
  }

  lemma ImageIsInPlace(firmware: Bytes, image: Bytes, before: Bytes)
    requires SizeOk(firmware) && |image| == |Padded(firmware)| && |before| >= MAX_CODE_SIZE
    ensures var f := FlashedImage(firmware, image, before); |image| <= |f| && f[..|image|] == image
  {
    EraseCoversTheImage(firmware);
  }

  // Flash starts with the padded firmware.
  predicate Holds(flash: Bytes, firmware: Bytes) {
    |Padded(firmware)| <= |flash| && flash[..|Padded(firmware)|] == Padded(firmware)
  }

  // What a complete plan under the client's key leaves.
  function Flashed(b: Boot, firmware: Bytes, mine: Bytes): Boot
    requires ValidBoot(b) && SizeOk(firmware) && |mine| == 8
  {
    Boot(b.uid, b.own, b.own, FlashedImage(firmware, Skewed(Padded(firmware), mine, b.own), b.flash))
  }

  // That is the firmware exactly when the two keys are one.
  lemma FlashedHoldsExactly(b: Boot, firmware: Bytes, mine: Bytes)
    requires ValidBoot(b) && SizeOk(firmware) && |mine| == 8
    ensures Holds(Flashed(b, firmware, mine).flash, firmware) <==> b.own == mine
  {
    var skewed := Skewed(Padded(firmware), mine, b.own);
    PaddedSize(firmware);
    ImageIsInPlace(firmware, skewed, b.flash);
    SkewDecides(Padded(firmware), mine, b.own);
  }

  // A run that reports success, against a bootloader that carries out what it is sent with
  // whatever key it derives, leaves exactly the image as that key decodes it, erased bytes
  // up to the end of the last erased sector, and the old contents after that; so the
  // firmware is there exactly when the bootloader's key is the client's.
  lemma SuccessfulRunWritesTheImage(device: Device, connected: bool, firmware: Bytes, b: Boot)
    requires ValidBoot(b)
    requires RunTool(device, connected, Flash, firmware).code in {0, 9}
    ensures SizeOk(firmware)
    ensures var after := ExecuteAll(b, RunTool(device, connected, Flash, firmware).log);
            after == Flashed(b, firmware, ReportedKey(device))
            && (Holds(after.flash, firmware) <==> b.own == ReportedKey(device))
  {
    CommandsFollowThePlan(device, connected, Flash, firmware);
    RunsAreSized(device, connected, Flash, firmware);
    PlanWritesTheImage(b, firmware, ReportedKey(device));
    FlashedHoldsExactly(b, firmware, ReportedKey(device));
  }

  lemma PlanWritesTheImage(b: Boot, firmware: Bytes, mine: Bytes)
    requires ValidBoot(b) && SizeOk(firmware) && |mine| == 8
    ensures ExecuteAll(b, Plan(Flash, firmware, mine)) == Flashed(b, firmware, mine)
  {
    ProgramPlanWritesTheImage(b, firmware, mine);
    ExecuteConcat(b, ProgramPlan(firmware, mine), ChunkPackets(VERIFY, Padded(firmware), mine, 0));
    VerifyingChangesNothing(ExecuteAll(b, ProgramPlan(firmware, mine)), Padded(firmware), mine);
    ExecuteConcat(b, VerifyPlan(firmware, mine), [Packet(RESTART, [0x01])]);
  }

  // The image is there before the first verify packet.
  lemma ProgramPlanWritesTheImage(b: Boot, firmware: Bytes, mine: Bytes)
    requires ValidBoot(b) && SizeOk(firmware) && |mine| == 8
    ensures ExecuteAll(b, ProgramPlan(firmware, mine)) == Flashed(b, firmware, mine)
  {
    var image, skewed := Padded(firmware), Skewed(Padded(firmware), mine, b.own);
    var erased := Boot(b.uid, b.own, b.own, Erased(b.flash, EraseEnd(firmware)));
    PaddedSize(firmware);
    KeyAndErase(b, firmware);
    ExecuteConcat(b, ErasePlan(firmware), ChunkPackets(PROGRAM, image, mine, 0));
    SkewedPackets(PROGRAM, image, mine, b.own, 0);
    ProgrammedFlash(erased, skewed, 0);
    assert skewed[0..] == skewed;
    WrittenOverErased(firmware, skewed, b.flash);
  }

  lemma KeyAndErase(b: Boot, firmware: Bytes)
    requires ValidBoot(b) && SizeOk(firmware)
    ensures ExecuteAll(b, ErasePlan(firmware)) == Boot(b.uid, b.own, b.own, Erased(b.flash, EraseEnd(firmware)))
  {
    var erase := Packet(ERASE, Le32(EraseSectors(|firmware|)));
    EraseCoversTheImage(firmware);
    Le32RoundTrip(EraseSectors(|firmware|));
    assert erase[3..7] == Le32(EraseSectors(|firmware|));
    KeyIsSet(b);
    ExecuteConcat(b, KeyPlan(), [erase]);
  }

  lemma KeyIsSet(b: Boot)
    requires ValidBoot(b)
    ensures ExecuteAll(b, KeyPlan()) == b.(key := b.own)
  {
    IdentifyChangesNothing(b);
    ExecuteConcat(b, IdentifyPlan(), [Packet(SET_KEY, KeyPayload())]);
  }

  lemma IdentifyChangesNothing(b: Boot)
    requires ValidBoot(b)
    ensures ExecuteAll(b, IdentifyPlan()) == b
  {
    var detect, config := Packet(DETECT, DETECT_PAYLOAD), Packet(READ_CONFIG, CONFIG_PAYLOAD);
    assert IdentifyPlan()[1..] == [config];
    assert ExecuteAll(b, [config]) == b;
  }

  // ---------------------------------------------------------------- what verify proves

  // The packet's data, decoded with the device's key, is what flash holds.
  predicate Matches(flash: Bytes, key: Bytes, p: Bytes)
    requires |key| == 8
  {
    |p| >= 8 && p[0] == VERIFY ==>
      var at := ReadLe32(p[3..7]);
      at + |p| - 8 <= |flash| && flash[at..at + |p| - 8] == Encoded(p[8..], key)
  }

  // Of these verify packets, sent one after the other, the device acknowledges none that
  // does not match. Nothing is asked of what it did or answered before.
  ghost predicate TruthfulVerify(device: Device, before: seq<Bytes>, packets: seq<Bytes>, flash: Bytes, key: Bytes)
    requires |key| == 8
  {
    forall j :: 0 <= j < |packets| && PacketAcked(device, before, VERIFY, packets, j) ==>
      Matches(flash, key, packets[j])
  }

  // Success against a device that answers the verify packets of this very run truthfully,
  // whatever it did before: flash holds the padded image exactly when the device's key is
  // the one the client derived. The key reply is only a checksum of the key, so this is
  // not implied.
  lemma SuccessMeansVerified(device: Device, connected: bool, firmware: Bytes, flash: Bytes, key: Bytes)
    requires |key| == 8 && RunTool(device, connected, Flash, firmware).code in {0, 9}
    requires var mine := ReportedKey(device);
             TruthfulVerify(device, ProgramPlan(firmware, mine), ChunkPackets(VERIFY, Padded(firmware), mine, 0),
                            flash, key)
    ensures SizeOk(firmware) && |Padded(firmware)| <= |flash|
    ensures Holds(flash, firmware) <==> key == ReportedKey(device)
  {
    var image, mine := Padded(firmware), ReportedKey(device);
    SuccessVerifies(device, connected, firmware);
    VerifiedBytes(device, ProgramPlan(firmware, mine), image, flash, key, mine);
    KeyDecides(image, flash, mine, key);
  }

  lemma SuccessVerifies(device: Device, connected: bool, firmware: Bytes)
    requires RunTool(device, connected, Flash, firmware).code in {0, 9}
    ensures SizeOk(firmware) && 8 <= |Padded(firmware)| <= 0x1_0000
    ensures AllAcked(device, ProgramPlan(firmware, ReportedKey(device)), VERIFY,
                     ChunkPackets(VERIFY, Padded(firmware), ReportedKey(device), 0))
  {
    CommandsFollowThePlan(device, connected, Flash, firmware);
    RunsAreSized(device, connected, Flash, firmware);
    PaddedSize(firmware);
  }

  lemma RunsAreSized(device: Device, connected: bool, mode: Mode, firmware: Bytes)
    ensures RunTool(device, connected, mode, firmware).code != 2 ==> SizeOk(firmware)
  {
  }

  lemma PaddedSize(firmware: Bytes)
    requires SizeOk(firmware)
    ensures 8 <= |Padded(firmware)| <= MAX_CODE_SIZE
  {
  }

  lemma VerifiedBytes(device: Device, before: seq<Bytes>, image: Bytes, flash: Bytes, key: Bytes, mine: Bytes)
    requires |key| == |mine| == 8
    requires AllAcked(device, before, VERIFY, ChunkPackets(VERIFY, image, mine, 0))
    requires TruthfulVerify(device, before, ChunkPackets(VERIFY, image, mine, 0), flash, key)
    requires 0 < |image| <= 0x1_0000
    ensures |image| <= |flash|
    ensures forall a :: 0 <= a < |image| ==> (flash[a] == image[a] <==> mine[a % 8] == key[a % 8])
  {
    VerifiedByte(device, before, image, flash, key, mine, |image| - 1);
    forall a | 0 <= a < |image|
      ensures flash[a] == image[a] <==> mine[a % 8] == key[a % 8]
    {
      VerifiedByte(device, before, image, flash, key, mine, a);
    }
  }

  lemma VerifiedByte(device: Device, before: seq<Bytes>, image: Bytes, flash: Bytes, key: Bytes, mine: Bytes, a: nat)
    requires |key| == |mine| == 8
    requires AllAcked(device, before, VERIFY, ChunkPackets(VERIFY, image, mine, 0))
    requires TruthfulVerify(device, before, ChunkPackets(VERIFY, image, mine, 0), flash, key)
    requires a < |image| <= 0x1_0000
    ensures a < |flash| && (flash[a] == image[a] <==> mine[a % 8] == key[a % 8])
  {
    VerifiedValue(device, before, image, flash, key, mine, a);
    XorCancels(flash[a], image[a], mine[a % 8], key[a % 8]);
  }

  lemma VerifiedValue(device: Device, before: seq<Bytes>, image: Bytes, flash: Bytes, key: Bytes, mine: Bytes, a: nat)
    requires |key| == |mine| == 8
    requires AllAcked(device, before, VERIFY, ChunkPackets(VERIFY, image, mine, 0))
    requires TruthfulVerify(device, before, ChunkPackets(VERIFY, image, mine, 0), flash, key)
    requires a < |image| <= 0x1_0000
    ensures a < |flash| && flash[a] == (image[a] ^ mine[a % 8]) ^ key[a % 8]
  {
    var j, i := a / CHUNK, a % CHUNK;
    var packets := ChunkPackets(VERIFY, image, mine, 0);
    ChunksTileTheImage(VERIFY, image, mine, a);
    ChunkOfAddress(image, a);
    VerifiedPacketByte(device, before, packets, flash, key, j, a, i, image[a] ^ mine[a % 8]);
  }

  lemma VerifiedPacketByte(device: Device, before: seq<Bytes>, packets: seq<Bytes>, flash: Bytes, key: Bytes,
                           j: nat, a: nat, i: nat, value: bv8)
    requires |key| == 8 && TruthfulVerify(device, before, packets, flash, key)
    requires AllAcked(device, before, VERIFY, packets) && j < |packets|
    requires i <= a && i % 8 == a % 8 && Carries(packets[j], VERIFY, a - i, i, value)
    ensures a < |flash| && flash[a] == value ^ key[a % 8]
  {
    assert PacketAcked(device, before, VERIFY, packets, j);
    MatchedByte(flash, key, packets[j], a - i, i, value);
  }

  lemma MatchedByte(flash: Bytes, key: Bytes, p: Bytes, at: nat, i: nat, value: bv8)
    requires |key| == 8 && Carries(p, VERIFY, at, i, value)
    requires Matches(flash, key, p)
    ensures at + i < |flash| && flash[at + i] == value ^ key[i % 8]
  {
    assert flash[at..at + |p| - 8][i] == Encoded(p[8..], key)[i];
  }
}
