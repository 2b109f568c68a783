/**
 The bootloader client and the abstract bootloader in one loop: every reply is computed from
 the packets sent so far, and the exit code and the final flash of every run are decided.
 */
module BootSession {
  import opened Wrappers
  import opened Flasher
  import opened FlasherLaws
  import opened FlashRoundTrip

  // ---------------------------------------------------------------- the replying bootloader

  function Reply(command: bv8, payload: Bytes): RawReply
    requires |payload| <= 60
  {
    Received([command, 0x00, Byte(|payload|), 0x00] + payload)
  }

  function ConfigReply(uid: Bytes): (c: Bytes)
    requires |uid| == 8
    ensures |c| == 26
  {
    [0x1F, 0x00, 0xFF, 0xFF, 0xFF, 0xFF, 0x23, 0x00, 0x00, 0x00, 0xFF, 0x52, 0x00, 0x00, 0x00, 0x02, 0x05, 0x00] + uid
  }

  // What a bootloader in state b, the packet not yet carried out, answers: verify packets
  // are acknowledged exactly when they match.
  function AnswerTo(b: Boot, p: Bytes): RawReply
    requires ValidBoot(b)
  {
    if p == [] then ReadFailed
    else if p[0] == DETECT then Reply(DETECT, [0x52, 0x11])
    else if p[0] == READ_CONFIG then Reply(READ_CONFIG, ConfigReply(b.uid))
    else if p[0] == SET_KEY then Reply(SET_KEY, [Sum(b.own), 0x00])
    else if p[0] == VERIFY && !Matches(b.flash, b.key, p) then Reply(VERIFY, [0xFF, 0x00])
    else Reply(p[0], [0x00, 0x00])
  }

  function Bootloader(b: Boot): Device
    requires ValidBoot(b)
  {
    (log: seq<Bytes>) =>
      if log == [] then ReadFailed
      else AnswerTo(ExecuteAll(b, log[..|log| - 1]), log[|log| - 1])
  }

  lemma AnswerAt(b: Boot, log: seq<Bytes>, p: Bytes)
    requires ValidBoot(b)
    ensures Bootloader(b)(log + [p]) == AnswerTo(ExecuteAll(b, log), p)
  {
    assert (log + [p])[..|log|] == log;
  }

  lemma ReplyParses(command: bv8, payload: Bytes)
    requires |payload| <= 60
    ensures ParseReply(command, Reply(command, payload)) == Some(payload)
  {
    var d := [command, 0x00, Byte(|payload|), 0x00] + payload;
    assert d[4..] == payload;
    ReplyCarries(command, d, payload);
  }

  // An exchange with a device whose reply is known.
  lemma ExchangeGets(device: Device, log: seq<Bytes>, command: bv8, payload: Bytes, answer: Bytes)
    requires |payload| <= MAX_PAYLOAD && |answer| <= 60
    requires device(log + [Packet(command, payload)]) == Reply(command, answer)
    ensures Exchange(device, log, command, payload) == Sent(log + [Packet(command, payload)], Some(answer))
  {
    ReplyParses(command, answer);
  }

  // ---------------------------------------------------------------- identity and key

  lemma BaselineConfig(uid: Bytes)
    requires |uid| == 8
    ensures ConfigOk(Some(ConfigReply(uid))) && Uid(ConfigReply(uid)) == uid
  {
    var c := ConfigReply(uid);
    assert c[2..6] == [0xFF, 0xFF, 0xFF, 0xFF] && c[6..10] == [0x23, 0x00, 0x00, 0x00];
    assert c[10..14] == [0xFF, 0x52, 0x00, 0x00] && c[14..18] == [0x00, 0x02, 0x05, 0x00];
    assert c[18..26] == uid;
  }

  lemma DetectAnswered(b: Boot)
    requires ValidBoot(b)
    ensures Exchange(Bootloader(b), [], DETECT, DETECT_PAYLOAD) ==
      Sent([Packet(DETECT, DETECT_PAYLOAD)], Some([0x52, 0x11]))
  {
    var detect := Packet(DETECT, DETECT_PAYLOAD);
    AnswerAt(b, [], detect);
    assert [] + [detect] == [detect];
    ExchangeGets(Bootloader(b), [], DETECT, DETECT_PAYLOAD, [0x52, 0x11]);
  }

  lemma DetectChangesNothing(b: Boot)
    requires ValidBoot(b)
    ensures ExecuteAll(b, [Packet(DETECT, DETECT_PAYLOAD)]) == b
  {
    assert Execute(b, Packet(DETECT, DETECT_PAYLOAD)) == b;
  }

  lemma ConfigIsRead(b: Boot)
    requires ValidBoot(b)
    ensures AnswerTo(b, Packet(READ_CONFIG, CONFIG_PAYLOAD)) == Reply(READ_CONFIG, ConfigReply(b.uid))
  {
  }

  lemma ConfigAnswered(b: Boot)
    requires ValidBoot(b)
    ensures Exchange(Bootloader(b), [Packet(DETECT, DETECT_PAYLOAD)], READ_CONFIG, CONFIG_PAYLOAD) ==
      Sent(IdentifyPlan(), Some(ConfigReply(b.uid)))
  {
    var detect, config := Packet(DETECT, DETECT_PAYLOAD), Packet(READ_CONFIG, CONFIG_PAYLOAD);
    DetectChangesNothing(b);
    AnswerAt(b, [detect], config);
    ConfigIsRead(b);
    ExchangeGets(Bootloader(b), [detect], READ_CONFIG, CONFIG_PAYLOAD, ConfigReply(b.uid));
    assert [detect] + [config] == IdentifyPlan();
  }

  lemma Identified(b: Boot)
    requires ValidBoot(b)
    ensures Identify(Bootloader(b), []) == Sent(IdentifyPlan(), Some(b.uid))
  {
    DetectAnswered(b);
    ConfigAnswered(b);
    BaselineConfig(b.uid);
  }

  // The key is accepted exactly when its checksum is that of the bootloader's own.
  lemma Keyed(b: Boot)
    requires ValidBoot(b)
    ensures SetKey(Bootloader(b), IdentifyPlan(), b.uid) ==
      Sent(KeyPlan(), if Sum(b.own) == Sum(SessionKey(b.uid)) then Some(SessionKey(b.uid)) else None)
  {
    AnswerAt(b, IdentifyPlan(), Packet(SET_KEY, KeyPayload()));
    IdentifyChangesNothing(b);
    ExchangeGets(Bootloader(b), IdentifyPlan(), SET_KEY, KeyPayload(), [Sum(b.own), 0x00]);
    ChecksumDecides(b.own, SessionKey(b.uid));
  }

  lemma ChecksumDecides(own: Bytes, mine: Bytes)
    ensures KeyOk(mine, Some([Sum(own), 0x00])) <==> Sum(own) == Sum(mine)
  {
    assert [Sum(own), 0x00][0] == Sum(own) && [Sum(mine), 0x00][0] == Sum(mine);
  }

  lemma PlainAck(b: Boot, log: seq<Bytes>, command: bv8, payload: Bytes)
    requires ValidBoot(b) && |payload| <= MAX_PAYLOAD
    requires command == ERASE || command == PROGRAM || command == RESTART
    ensures Exchange(Bootloader(b), log, command, payload) ==
      Sent(log + [Packet(command, payload)], Some([0x00, 0x00]))
  {
    AnswerAt(b, log, Packet(command, payload));
    ExchangeGets(Bootloader(b), log, command, payload, [0x00, 0x00]);
  }

  // ---------------------------------------------------------------- transfers

  lemma {:induction false} AckedTransferSucceeds(device: Device, log: seq<Bytes>, command: bv8, image: Bytes,
                                                 key: Bytes, offset: nat)
    requires |key| == 8 && AllAcked(device, log, command, ChunkPackets(command, image, key, offset))
    ensures Transfer(device, log, command, image, key, offset) ==
      Sent(log + ChunkPackets(command, image, key, offset), Some(()))
    decreases |image| - offset
  {
    if offset >= |image| {
      assert log + [] == log;
    } else {
      var next := offset + ChunkLength(image, offset);
      var first, rest := Packet(command, ChunkPayload(image, key, offset)), ChunkPackets(command, image, key, next);
      RestAcked(device, log, command, first, rest);
      TransferGoesOn(device, log, command, image, key, offset);
      AckedTransferSucceeds(device, log + [first], command, image, key, next);
      Regroup(log, first, rest);
    }
  }

  lemma TransferGoesOn(device: Device, log: seq<Bytes>, command: bv8, image: Bytes, key: Bytes, offset: nat)
    requires |key| == 8 && offset < |image|
    requires var first := Packet(command, ChunkPayload(image, key, offset));
             Acknowledged(Answer(device, log + [first], command))
    ensures Transfer(device, log, command, image, key, offset) ==
      Transfer(device, log + [Packet(command, ChunkPayload(image, key, offset))], command, image, key,
               offset + ChunkLength(image, offset))
  {
  }

  lemma Regroup(log: seq<Bytes>, first: Bytes, rest: seq<Bytes>)
    ensures log + [first] + rest == log + ([first] + rest)
  {
  }

  lemma RestAcked(device: Device, log: seq<Bytes>, command: bv8, first: Bytes, rest: seq<Bytes>)
    requires AllAcked(device, log, command, [first] + rest)
    ensures Acknowledged(Answer(device, log + [first], command))
    ensures AllAcked(device, log + [first], command, rest)
  {
    var packets := [first] + rest;
    assert PacketAcked(device, log, command, packets, 0);
    assert packets[..1] == [first];
    forall j | 0 <= j < |rest| ensures PacketAcked(device, log + [first], command, rest, j) {
      assert PacketAcked(device, log, command, packets, j + 1);
      FirstThenRest(log, first, rest, j + 1);
    }
  }

  // The bootloader's answer to packet j is an acknowledgement.
  ghost predicate AnswersAck(b: Boot, log: seq<Bytes>, command: bv8, packets: seq<Bytes>, j: nat)
    requires ValidBoot(b) && j < |packets|
  {
    Acknowledged(ParseReply(command, AnswerTo(ExecuteAll(b, log + packets[..j]), packets[j])))
  }

  lemma AnsweredMeansAcked(b: Boot, log: seq<Bytes>, command: bv8, packets: seq<Bytes>)
    requires ValidBoot(b) && forall j :: 0 <= j < |packets| ==> AnswersAck(b, log, command, packets, j)
    ensures AllAcked(Bootloader(b), log, command, packets)
  {
    forall j | 0 <= j < |packets| ensures PacketAcked(Bootloader(b), log, command, packets, j) {
      AnsweredIsAcked(b, log, command, packets, j);
    }
  }

  lemma AnsweredIsAcked(b: Boot, log: seq<Bytes>, command: bv8, packets: seq<Bytes>, j: nat)
    requires ValidBoot(b) && j < |packets| && AnswersAck(b, log, command, packets, j)
    ensures PacketAcked(Bootloader(b), log, command, packets, j)
  {
    AnswerAt(b, log + packets[..j], packets[j]);
    ReplyAcks(Bootloader(b), log, command, packets, j, AnswerTo(ExecuteAll(b, log + packets[..j]), packets[j]));
  }

  lemma ReplyAcks(device: Device, log: seq<Bytes>, command: bv8, packets: seq<Bytes>, j: nat, r: RawReply)
    requires j < |packets| && device(log + packets[..j] + [packets[j]]) == r
    requires Acknowledged(ParseReply(command, r))
    ensures PacketAcked(device, log, command, packets, j)
  {
    assert log + packets[..j] + [packets[j]] == log + packets[..j + 1];
  }

  lemma ProgramAcked(b: Boot, log: seq<Bytes>, image: Bytes, key: Bytes)
    requires ValidBoot(b) && |key| == 8
    ensures AllAcked(Bootloader(b), log, PROGRAM, ChunkPackets(PROGRAM, image, key, 0))
  {
    var packets := ChunkPackets(PROGRAM, image, key, 0);
    ChunkCommands(PROGRAM, image, key, 0);
    forall j | 0 <= j < |packets| ensures AnswersAck(b, log, PROGRAM, packets, j) {
      assert packets[j] in packets;
      ProgramIsAcked(ExecuteAll(b, log + packets[..j]), packets[j]);
    }
    AnsweredMeansAcked(b, log, PROGRAM, packets);
  }

  lemma ProgramIsAcked(s: Boot, p: Bytes)
    requires ValidBoot(s) && p != [] && p[0] == PROGRAM
    ensures Acknowledged(ParseReply(PROGRAM, AnswerTo(s, p)))
  {
    ReplyParses(PROGRAM, [0x00, 0x00]);
  }

  // The packet is a verify packet for the data at this address.
  predicate Verifies(p: Bytes, at: nat, data: Bytes, key: Bytes)
    requires |key| == 8
  {
    |p| == 8 + |data| && p[0] == VERIFY && ReadLe32(p[3..7]) == at && p[8..] == Encoded(data, key)
  }

  lemma ChunkVerifies(image: Bytes, key: Bytes, offset: nat)
    requires |key| == 8 && offset < |image| <= 0x1_0000
    ensures Verifies(Packet(VERIFY, ChunkPayload(image, key, offset)), offset,
                     image[offset..offset + ChunkLength(image, offset)], key)
  {
    ChunkHeader(VERIFY, image, key, offset);
  }

  lemma ChunkMatches(b: Boot, image: Bytes, offset: nat)
    requires ValidBoot(b) && offset < |image| <= 0x1_0000
    requires |image| <= |b.flash| && b.flash[..|image|] == image
    ensures Matches(b.flash, b.key, Packet(VERIFY, ChunkPayload(image, b.key, offset)))
  {
    ChunkVerifies(image, b.key, offset);
    DataMatches(b.flash, b.key, Packet(VERIFY, ChunkPayload(image, b.key, offset)), image, offset,
                offset + ChunkLength(image, offset));
  }

  lemma DataMatches(flash: Bytes, key: Bytes, p: Bytes, image: Bytes, from: nat, to: nat)
    requires |key| == 8 && from <= to <= |image| <= |flash| && flash[..|image|] == image
    requires Verifies(p, from, image[from..to], key)
    ensures Matches(flash, key, p)
  {
    SliceOfPrefix(flash, image, from, to);
    DecodeEncoded(image[from..to], key);
  }

  lemma SliceOfPrefix(flash: Bytes, image: Bytes, from: nat, to: nat)
    requires |image| <= |flash| && flash[..|image|] == image && from <= to <= |image|
    ensures flash[from..to] == image[from..to]
  {
    forall i | from <= i < to ensures flash[i] == image[i] {
      assert flash[..|image|][i] == flash[i];
    }
  }

  // A flash that holds the image acknowledges every verify packet.
  lemma VerifyAcked(b: Boot, log: seq<Bytes>, s: Boot, image: Bytes)
    requires ValidBoot(b) && s == ExecuteAll(b, log) && |image| <= 0x1_0000
    requires |image| <= |s.flash| && s.flash[..|image|] == image
    ensures AllAcked(Bootloader(b), log, VERIFY, ChunkPackets(VERIFY, image, s.key, 0))
  {
    var packets := ChunkPackets(VERIFY, image, s.key, 0);
    forall j | 0 <= j < |packets| ensures AnswersAck(b, log, VERIFY, packets, j) {
      VerifyAnswered(b, log, s, image, packets, j);
    }
    AnsweredMeansAcked(b, log, VERIFY, packets);
  }

  lemma VerifyAnswered(b: Boot, log: seq<Bytes>, s: Boot, image: Bytes, packets: seq<Bytes>, j: nat)
    requires ValidBoot(b) && s == ExecuteAll(b, log) && |image| <= 0x1_0000
    requires |image| <= |s.flash| && s.flash[..|image|] == image
    requires packets == ChunkPackets(VERIFY, image, s.key, 0) && j < |packets|
    ensures AnswersAck(b, log, VERIFY, packets, j)
  {
    ChunkCommands(VERIFY, image, s.key, 0);
    ExecuteConcat(b, log, packets[..j]);
    VerifyPacketsChangeNothing(s, packets[..j]);
    assert packets[j] in packets;
    ChunksFrom(VERIFY, image, s.key, 0);
    ChunkAt(VERIFY, image, s.key, 0, j);
    ChunkMatches(s, image, CHUNK * j);
    MatchIsAcked(s, packets[j]);
  }

  lemma MatchIsAcked(s: Boot, p: Bytes)
    requires ValidBoot(s) && p != [] && p[0] == VERIFY && Matches(s.flash, s.key, p)
    ensures Acknowledged(ParseReply(VERIFY, AnswerTo(s, p)))
  {
    ReplyParses(VERIFY, [0x00, 0x00]);
  }

  // ---------------------------------------------------------------- the whole run

  lemma ProgramSucceeds(b: Boot, firmware: Bytes, mine: Bytes)
    requires ValidBoot(b) && SizeOk(firmware) && |mine| == 8
    ensures Transfer(Bootloader(b), ErasePlan(firmware), PROGRAM, Padded(firmware), mine, 0)
         == Sent(ProgramPlan(firmware, mine), Some(()))
  {
    ProgramAcked(b, ErasePlan(firmware), Padded(firmware), mine);
    AckedTransferSucceeds(Bootloader(b), ErasePlan(firmware), PROGRAM, Padded(firmware), mine, 0);
  }

  // The verify pass cannot fail after the program pass, whatever the keys: what the
  // bootloader decodes now is what it decoded then.
  lemma VerifySucceeds(b: Boot, firmware: Bytes, mine: Bytes)
    requires ValidBoot(b) && SizeOk(firmware) && |mine| == 8
    ensures Transfer(Bootloader(b), ProgramPlan(firmware, mine), VERIFY, Padded(firmware), mine, 0)
         == Sent(VerifyPlan(firmware, mine), Some(()))
  {
    var image, skewed := Padded(firmware), Skewed(Padded(firmware), mine, b.own);
    PaddedSize(firmware);
    ProgramPlanWritesTheImage(b, firmware, mine);
    ImageIsInPlace(firmware, skewed, b.flash);
    VerifyAcked(b, ProgramPlan(firmware, mine), Flashed(b, firmware, mine), skewed);
    SkewedPackets(VERIFY, image, mine, b.own, 0);
    AckedTransferSucceeds(Bootloader(b), ProgramPlan(firmware, mine), VERIFY, image, mine, 0);
  }

  // Every exchange of the flash session is acknowledged.
  ghost predicate AllGoes(device: Device, firmware: Bytes, key: Bytes)
    requires |key| == 8
  {
    && Exchange(device, KeyPlan(), ERASE, Le32(EraseSectors(|firmware|)))
       == Sent(ErasePlan(firmware), Some([0x00, 0x00]))
    && Transfer(device, ErasePlan(firmware), PROGRAM, Padded(firmware), key, 0)
       == Sent(ProgramPlan(firmware, key), Some(()))
    && Transfer(device, ProgramPlan(firmware, key), VERIFY, Padded(firmware), key, 0)
       == Sent(VerifyPlan(firmware, key), Some(()))
    && Exchange(device, VerifyPlan(firmware, key), RESTART, [0x01])
       == Sent(Plan(Flash, firmware, key), Some([0x00, 0x00]))
  }

  lemma FlashGoesOn(device: Device, firmware: Bytes, key: Bytes)
    requires |key| == 8 && AllGoes(device, firmware, key)
    ensures FlashSession(device, KeyPlan(), firmware, key) == Exit(0, Plan(Flash, firmware, key))
  {
  }

  lemma EraseSucceeds(b: Boot, firmware: Bytes)
    requires ValidBoot(b)
    ensures Exchange(Bootloader(b), KeyPlan(), ERASE, Le32(EraseSectors(|firmware|)))
         == Sent(ErasePlan(firmware), Some([0x00, 0x00]))
  {
    PlainAck(b, KeyPlan(), ERASE, Le32(EraseSectors(|firmware|)));
  }

  lemma RestartSucceeds(b: Boot, firmware: Bytes, key: Bytes)
    requires ValidBoot(b) && |key| == 8
    ensures Exchange(Bootloader(b), VerifyPlan(firmware, key), RESTART, [0x01])
         == Sent(Plan(Flash, firmware, key), Some([0x00, 0x00]))
  {
    RestartAfter(b, VerifyPlan(firmware, key), Plan(Flash, firmware, key));
  }

  lemma RestartAfter(b: Boot, log: seq<Bytes>, plan: seq<Bytes>)
    requires ValidBoot(b) && plan == log + [Packet(RESTART, [0x01])]
    ensures Exchange(Bootloader(b), log, RESTART, [0x01]) == Sent(plan, Some([0x00, 0x00]))
  {
    PlainAck(b, log, RESTART, [0x01]);
  }

  lemma AllSucceeds(b: Boot, firmware: Bytes, mine: Bytes)
    requires ValidBoot(b) && SizeOk(firmware) && |mine| == 8
    ensures AllGoes(Bootloader(b), firmware, mine)
  {
    EraseSucceeds(b, firmware);
    ProgramSucceeds(b, firmware, mine);
    VerifySucceeds(b, firmware, mine);
    RestartSucceeds(b, firmware, mine);
  }

  lemma FlashSessionSucceeds(b: Boot, firmware: Bytes, mine: Bytes)
    requires ValidBoot(b) && SizeOk(firmware) && |mine| == 8
    ensures FlashSession(Bootloader(b), KeyPlan(), firmware, mine) == Exit(0, Plan(Flash, firmware, mine))
  {
    AllSucceeds(b, firmware, mine);
    FlashGoesOn(Bootloader(b), firmware, mine);
  }

  lemma SessionGoesOn(device: Device, firmware: Bytes, uid: Bytes, key: Option<Bytes>, e: Exit)
    requires |uid| == 8 && Identify(device, []) == Sent(IdentifyPlan(), Some(uid))
    requires SetKey(device, IdentifyPlan(), uid) == Sent(KeyPlan(), key)
    requires e == if key.None? then Exit(5, KeyPlan()) else FlashSession(device, KeyPlan(), firmware, key.value)
    ensures Session(device, Flash, firmware) == e
  {
  }

  // The run stops at the key exchange, or goes through.
  lemma SessionEnds(b: Boot, firmware: Bytes)
    requires ValidBoot(b) && SizeOk(firmware)
    ensures Session(Bootloader(b), Flash, firmware) ==
      if Sum(b.own) == Sum(SessionKey(b.uid)) then Exit(0, Plan(Flash, firmware, SessionKey(b.uid)))
      else Exit(5, KeyPlan())
  {
    var mine := SessionKey(b.uid);
    var accepted := Sum(b.own) == Sum(mine);
    Identified(b);
    Keyed(b);
    FlashSessionSucceeds(b, firmware, mine);
    SessionGoesOn(Bootloader(b), firmware, b.uid, if accepted then Some(mine) else None,
                  if accepted then Exit(0, Plan(Flash, firmware, mine)) else Exit(5, KeyPlan()));
  }

  // Against a bootloader that carries out and answers what it is sent, whatever its UID,
  // key and old flash, the exit code says whether the checksum of its key was right, and
  // then flash is as that key decodes the packets. So exit 0 means the firmware is in
  // flash exactly when the bootloader derives the client's key, and exit 5 leaves flash alone.
  lemma EveryRunEnds(b: Boot, firmware: Bytes)
    requires ValidBoot(b) && SizeOk(firmware)
    ensures var e, mine := RunTool(Bootloader(b), true, Flash, firmware), SessionKey(b.uid);
            e.code == (if Sum(b.own) == Sum(mine) then 0 else 5)
            && (e.code == 0 ==>
                  ExecuteAll(b, e.log) == Flashed(b, firmware, mine)
                  && (Holds(ExecuteAll(b, e.log).flash, firmware) <==> b.own == mine))
            && (e.code == 5 ==> ExecuteAll(b, e.log).flash == b.flash)
  {
    EraseCoversTheImage(firmware);
    KeyIsSet(b);
    SessionEnds(b, firmware);
    PlanWritesTheImage(b, firmware, SessionKey(b.uid));
    FlashedHoldsExactly(b, firmware, SessionKey(b.uid));
  }

  lemma NoSkew(image: Bytes, key: Bytes)
    requires |key| == 8
    ensures Skewed(image, key, key) == image
  {
    forall i | 0 <= i < |image| ensures Skewed(image, key, key)[i] == image[i] {
      XorTwice(image[i], key[i % 8]);
    }
  }

  // With the key derived as the client derives it, every firmware of an accepted size is
  // flashed with exit 0 and ends up in flash, and any other is refused before anything is
  // sent.
  lemma EveryFirmwareIsFlashed(b: Boot, firmware: Bytes)
    requires ValidBoot(b) && b.own == SessionKey(b.uid)
    ensures var e := RunTool(Bootloader(b), true, Flash, firmware);
            if SizeOk(firmware) then
              e.code == 0
              && ExecuteAll(b, e.log)
                 == Boot(b.uid, b.own, b.own, FlashedImage(firmware, Padded(firmware), b.flash))
            else e == Exit(2, [])
  {
    if SizeOk(firmware) {
      EveryRunEnds(b, firmware);
      NoSkew(Padded(firmware), b.own);
    }
  }

  // A failing run: with the all-zero UID and the chip ID at the wrong end of the key the
  // client reports success on every firmware, and flash does not hold it.
  lemma WrongKeyPassesVerify(b: Boot, firmware: Bytes)
    requires ValidBoot(b) && SizeOk(firmware)
    requires b.uid == Zeros(8) && b.own == [CHIP_ID] + Zeros(7)
    ensures var e := RunTool(Bootloader(b), true, Flash, firmware);
            e.code == 0 && !Holds(ExecuteAll(b, e.log).flash, firmware)
  {
    ChecksumDoesNotPinTheKey(Some([Sum(b.own), 0x00]));
    ChecksumDecides(b.own, b.own);
    ChecksumDecides(b.own, SessionKey(b.uid));
    EveryRunEnds(b, firmware);
  }
}
