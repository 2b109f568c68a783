/**
 Which standard requests endpoint 0 supports, and what the host gets for each: the
 descriptor a GET_DESCRIPTOR names, the answers of the other requests, and the refusal of
 the rest. Requests, descriptor types and indices are written as the numbers on the wire
 (sections 9.3 and 9.4 of the USB 2.0 specification, section 7.1 of HID 1.11).
 */
module RequestLaws {
  import opened Wrappers
  import opened SharedRam
  import opened ControlTransfer
  import opened ControlTransferLaws

  // The whole transfer that follows this SETUP gives the host the first wLength bytes of the
  // region, or all of it if it is shorter.
  ghost predicate Delivers(rom: Rom, s: Engine, q: Setup, r: Region)
    requires rom.Wf() && s.Wf()
  {
    CollectsAll(rom, OnSetup(rom, s, q, 8), r, Min(q.Length(), r.size))
  }

  // Both directions answer STALL, expecting DATA1, and the request is forgotten.
  predicate Refused(t: Engine) {
    t.tx == Stall && t.rx == Stall && t.txToggle && t.rxToggle && t.request == 0xFF
  }

  predicate AsksDescriptor(q: Setup) {
    q.requestType & 0x60 == 0 && q.request == 0x06
  }

  lemma DeliversFound(rom: Rom, s: Engine, q: Setup, r: Region)
    requires rom.Wf() && s.Wf() && AsksDescriptor(q) && rom.Find(q) == Found(r)
    ensures Delivers(rom, s, q, r)
  {
    DescriptorArrivesWhole(rom, s, q, r, 0);
  }

  // Type 1 is the device descriptor, 2 the configuration.
  lemma DeviceAndConfigAreServed(rom: Rom, s: Engine, q: Setup)
    requires rom.Wf() && s.Wf() && AsksDescriptor(q)
    ensures q.valueH == 0x01 ==> Delivers(rom, s, q, rom.device)
    ensures q.valueH == 0x02 ==> Delivers(rom, s, q, rom.config)
  {
    if q.valueH == 0x01 {
      DeliversFound(rom, s, q, rom.device);
    } else if q.valueH == 0x02 {
      DeliversFound(rom, s, q, rom.config);
    }
  }

  // Type 3 is a string, by its index; those not defined get the one of index 0.
  lemma StringsAreServed(rom: Rom, s: Engine, q: Setup)
    requires rom.Wf() && s.Wf() && AsksDescriptor(q) && q.valueH == 0x03
    ensures Delivers(rom, s, q, if q.valueL == 1 then rom.manufacturer
                                else if q.valueL == 2 then rom.product
                                else if q.valueL == 4 then rom.interfaceName
                                else rom.language)
  {
    if q.valueL == 1 {
      DeliversFound(rom, s, q, rom.manufacturer);
    } else if q.valueL == 2 {
      DeliversFound(rom, s, q, rom.product);
    } else if q.valueL == 4 {
      DeliversFound(rom, s, q, rom.interfaceName);
    } else {
      DeliversFound(rom, s, q, rom.language);
    }
  }

  // Type 0x22 is a report descriptor, by the interface number in wIndex: 0 is the keyboard,
  // 1 Raw HID, and there is no other.
  lemma ReportsAreServed(rom: Rom, s: Engine, q: Setup)
    requires rom.Wf() && s.Wf() && AsksDescriptor(q) && q.valueH == 0x22
    ensures q.indexL == 0 ==> Delivers(rom, s, q, rom.report)
    ensures q.indexL == 1 ==> Delivers(rom, s, q, rom.rawReport)
    ensures q.indexL > 1 ==> Refused(OnSetup(rom, s, q, 8))
  {
    if q.indexL == 0 {
      DeliversFound(rom, s, q, rom.report);
    } else if q.indexL == 1 {
      DeliversFound(rom, s, q, rom.rawReport);
    }
  }

  lemma OtherTypesAreRefused(rom: Rom, s: Engine, q: Setup)
    requires rom.Wf() && s.Wf() && AsksDescriptor(q) && q.valueH !in [0x01, 0x02, 0x03, 0x22]
    ensures Refused(OnSetup(rom, s, q, 8))
  {
  }

  function Ask(valueH: bv8, valueL: bv8, indexL: bv8): Setup {
    Setup(0x80, 0x06, valueL, valueH, indexL, 0, 0xFF, 0xFF)
  }

  // Every descriptor is served to some request, whole.
  lemma EveryRegionIsServed(rom: Rom, s: Engine, r: Region) returns (q: Setup)
    requires rom.Wf() && s.Wf() && r in rom.Regions()
    ensures Delivers(rom, s, q, r) && q.Length() == 0xFFFF
  {
    q := if r == rom.device then Ask(1, 0, 0) else if r == rom.config then Ask(2, 0, 0)
         else if r == rom.report then Ask(0x22, 0, 0) else if r == rom.rawReport then Ask(0x22, 0, 1)
         else if r == rom.language then Ask(3, 0, 0) else if r == rom.manufacturer then Ask(3, 1, 0)
         else if r == rom.product then Ask(3, 2, 0) else Ask(3, 4, 0);
    AskLength(q);
    if q.valueH == 3 {
      StringsAreServed(rom, s, q);
    } else if q.valueH == 0x22 {
      ReportsAreServed(rom, s, q);
    } else {
      DeviceAndConfigAreServed(rom, s, q);
    }
  }

  lemma AskLength(q: Setup)
    requires q.lengthL == 0xFF && q.lengthH == 0xFF
    ensures q.Length() == 0xFFFF
  {
  }

  // ---------------------------------------------------------------- supported requests

  predicate HaltableEndpoint(address: bv8) {
    address in [0x81, 0x01, 0x82, 0x02]
  }

  // Remote wake-up, and only if the configuration descriptor offers it.
  predicate WakeupFeature(rom: Rom, q: Setup) {
    && q.requestType & 0x1F == 0 && q.valueH == 0 && q.valueL == 1
    && rom.config.base + 7 < |rom.code| && rom.code[rom.config.base + 7] & 0x20 != 0
  }

  predicate SupportedFeature(rom: Rom, q: Setup, setting: bool) {
    || WakeupFeature(rom, q)
    || (&& q.requestType & 0x1F == 2 && HaltableEndpoint(q.indexL)
        && (setting ==> q.valueH == 0 && q.valueL == 0 && q.indexH == 0))
  }

  predicate SupportedDescriptor(q: Setup) {
    q.valueH in [0x01, 0x02, 0x03] || (q.valueH == 0x22 && q.indexL <= 1)
  }

  predicate Supported(rom: Rom, q: Setup, rxLen: nat) {
    && rxLen == 8 && q.requestType & 0x60 == 0
    && (|| q.request in [0x00, 0x05, 0x08, 0x09, 0x0A, 0x0B]
        || (q.request == 0x01 && SupportedFeature(rom, q, false))
        || (q.request == 0x03 && SupportedFeature(rom, q, true))
        || (q.request == 0x06 && SupportedDescriptor(q)))
  }

  // Both directions answer ACK, expecting DATA1.
  predicate Taken(t: Engine, q: Setup) {
    t.tx == Ack && t.rx == Ack && t.txToggle && t.rxToggle && t.request == q.request
  }

  lemma FeatureOutcome(rom: Rom, s: Engine, q: Setup)
    requires rom.Wf() && s.Wf() && q.requestType & 0x60 == 0 && (q.request == 0x01 || q.request == 0x03)
    ensures var t := OnSetup(rom, s, q, 8);
            if SupportedFeature(rom, q, q.request == 0x03) then Taken(t, q) && t.txLen == 0 else Refused(t)
  {
    var r := s.(setupLen := q.Length(), request := q.request);
    if q.request == 0x01 {
      ClearDecides(rom, q);
      FeatureTaken(r, q, ClearFeatureSupported(rom, q), Nak, Ack);
      assert OnSetup(rom, s, q, 8) == OnFeature(r, q, ClearFeatureSupported(rom, q), Nak, Ack);
    } else {
      SetDecides(rom, q);
      FeatureTaken(r, q, SetFeatureSupported(rom, q), Stall, Stall);
      assert OnSetup(rom, s, q, 8) == OnFeature(r, q, SetFeatureSupported(rom, q), Stall, Stall);
    }
  }

  lemma FeatureTaken(s: Engine, q: Setup, supported: bool, tx: Response, rx: Response)
    requires s.Wf() && s.request == q.request
    ensures var t := OnFeature(s, q, supported, tx, rx);
            if supported then Taken(t, q) && t.txLen == 0 else Refused(t)
  {
  }

  lemma ClearDecides(rom: Rom, q: Setup)
    ensures ClearFeatureSupported(rom, q) <==> SupportedFeature(rom, q, false)
  {
  }

  lemma SetDecides(rom: Rom, q: Setup)
    ensures SetFeatureSupported(rom, q) <==> SupportedFeature(rom, q, true)
  {
  }

  lemma DescriptorOutcome(rom: Rom, s: Engine, q: Setup)
    requires rom.Wf() && s.Wf() && AsksDescriptor(q)
    ensures var t := OnSetup(rom, s, q, 8);
            if SupportedDescriptor(q) then Taken(t, q) else Refused(t)
  {
    if SupportedDescriptor(q) {
      FoundDescriptorKeepsInv(rom, s, q);
      FoundIsTaken(rom, s, q);
    }
  }

  lemma FoundIsTaken(rom: Rom, s: Engine, q: Setup)
    requires rom.Wf() && s.Wf() && AsksDescriptor(q) && rom.Find(q).Found?
    ensures Taken(OnSetup(rom, s, q, 8), q)
  {
    var r := s.(setupLen := q.Length(), request := q.request);
    ServedIsTaken(rom, r, q);
    assert OnSetup(rom, s, q, 8) == OnStandardRequest(rom, r, q);
  }

  lemma ServedIsTaken(rom: Rom, s: Engine, q: Setup)
    requires rom.Wf() && s.Wf() && s.request == q.request == 0x06 && rom.Find(q).Found?
    ensures Taken(OnStandardRequest(rom, s, q), q)
  {
    var r := rom.Find(q).region;
    ServeKeepsRequest(rom, s.(setupLen := Min(s.setupLen, r.size), descr := r.base));
  }

  lemma ServeKeepsRequest(rom: Rom, s: Engine)
    requires rom.Wf() && s.Wf()
    ensures ServeChunk(rom, s).request == s.request
  {
  }

  // A SETUP is taken exactly when it is one of these, and refused otherwise.
  lemma SetupIsTakenExactly(rom: Rom, s: Engine, q: Setup, rxLen: nat)
    requires rom.Wf() && s.Wf()
    ensures var t := OnSetup(rom, s, q, rxLen);
            if Supported(rom, q, rxLen) then Taken(t, q) else Refused(t)
  {
    if rxLen == 8 && q.requestType & 0x60 == 0 {
      if q.request == 0x01 || q.request == 0x03 {
        FeatureOutcome(rom, s, q);
      } else if q.request == 0x06 {
        DescriptorOutcome(rom, s, q);
      } else {
        PlainOutcome(rom, s, q);
      }
    }
  }

  lemma PlainOutcome(rom: Rom, s: Engine, q: Setup)
    requires rom.Wf() && s.Wf() && q.requestType & 0x60 == 0 && q.request !in [0x01, 0x03, 0x06]
    ensures var t := OnSetup(rom, s, q, 8);
            if q.request in [0x00, 0x05, 0x08, 0x09, 0x0A, 0x0B] then Taken(t, q) else Refused(t)
  {
  }

  // What the first IN after such a request gives the host: two zero bytes of status, the
  // configuration value, or nothing, cut to the length asked for.
  lemma OtherAnswers(rom: Rom, s: Engine, q: Setup)
    requires rom.Wf() && s.Wf() && q.requestType & 0x60 == 0 && q.request != 0x06
    requires Supported(rom, q, 8)
    ensures OnSetup(rom, s, q, 8).Packet() ==
      if q.request == 0x00 then [0, 0][..Min(q.Length(), 2)]
      else if q.request == 0x08 then [s.config][..Min(q.Length(), 1)]
      else []
  {
    if q.request == 0x01 || q.request == 0x03 {
      FeatureOutcome(rom, s, q);
    } else {
      PlainAnswers(rom, s, q);
    }
  }

  lemma PlainAnswers(rom: Rom, s: Engine, q: Setup)
    requires rom.Wf() && s.Wf() && q.requestType & 0x60 == 0
    requires q.request in [0x00, 0x05, 0x08, 0x09, 0x0A, 0x0B]
    ensures OnSetup(rom, s, q, 8).Packet() ==
      if q.request == 0x00 then [0, 0][..Min(q.Length(), 2)]
      else if q.request == 0x08 then [s.config][..Min(q.Length(), 1)]
      else []
  {
  }

  // After a refusal the host gets STALL to everything until the next SETUP or reset.
  lemma {:induction false} RefusalLasts(rom: Rom, s: Session, events: seq<Event>)
    requires rom.Wf() && s.engine.Wf() && s.engine.tx == Stall && s.engine.rx == Stall
    requires NoSetupIn(events) && PossibleRun(rom, s, events)
    ensures var t := Run(rom, s, events).engine; t.tx == Stall && t.rx == Stall
    decreases events
  {
    if events != [] {
      assert events[0] in events && events[0].Elsewhere?;
      RefusalLasts(rom, Next(rom, s, events[0]), events[1..]);
    }
  }

  // ---------------------------------------------------------------- the end of a request

  // Nothing is left for the host to read: no IN is answered with data.
  predicate Spent(t: Engine)
    requires t.Wf()
  {
    (t.tx == Nak || t.tx == Stall) && t.Packet() == []
  }

  // The two bits of a response field: 00 ACK, 01 none, 10 NAK, 11 STALL.
  function Bits(r: Response): bv8 {
    match r
    case Ack => 0
    case Timeout => 1
    case Nak => 2
    case Stall => 3
  }

  // An OUT, the status stage of a read, ends it: the NAK code is OR-ed into the answer.
  lemma OutEndsTheRequest(rom: Rom, s: Engine)
    requires rom.Wf() && s.Wf()
    ensures var t := Step(rom, s, OutDone);
            Bits(t.tx) == Bits(s.tx) | 2 && t.Packet() == [] && Spent(t)
            && t == s.(tx := t.tx, txLen := 0)
  {
  }

  // So does the first IN of any request but a GET_DESCRIPTOR, and the device is ready for
  // the next SETUP.
  lemma InEndsOtherRequests(rom: Rom, s: Engine, q: Setup)
    requires rom.Wf() && s.Wf() && Supported(rom, q, 8) && q.request != 0x06
    ensures var t := Step(rom, OnSetup(rom, s, q, 8), InDone);
            t.tx == Nak && t.rx == Ack && !t.txToggle && !t.rxToggle
            && Spent(t) && (q.request != 0x05 ==> t.address == s.address)
  {
    SetupIsTakenExactly(rom, s, q, 8);
    if q.request == 0x05 {
      OtherAnswers(rom, s, q);
    } else {
      SetupKeepsAddress(rom, s, q, 8);
    }
  }

  // It stays so until the next SETUP or reset, over every run.
  lemma {:induction false} SpentStaysSpent(rom: Rom, s: Session, events: seq<Event>)
    requires rom.Wf() && s.engine.Wf() && Spent(s.engine)
    requires NoSetupIn(events) && PossibleRun(rom, s, events)
    ensures var t := Run(rom, s, events).engine;
            Spent(t) && t.address == s.engine.address && !Possible(t, InDone)
    decreases events
  {
    if events != [] {
      assert events[0] in events;
      if events[0].OutDone? {
        OutEndsTheRequest(rom, s.engine);
      }
      SpentStaysSpent(rom, Next(rom, s, events[0]), events[1..]);
    }
  }

  // Address 0, no data to read, and the other endpoints open, expecting DATA0.
  predicate Ready(t: Engine) {
    && t.address == 0 && t.tx == Nak && t.rx == Ack && !t.txToggle && !t.rxToggle
    && t.halves.ep1Tx == t.halves.ep2Tx == Half(Nak, false)
    && t.halves.ep1Rx == t.halves.ep2Rx == Half(Ack, false)
  }

  // So it is at power-on, unconfigured, and after a bus reset, which keeps configuration and
  // RAM.
  lemma ResetStartsOver(rom: Rom, s: Engine, ram: Ram)
    requires rom.Wf() && s.Wf() && |ram| == RAM_SIZE
    ensures Ready(PowerOn(ram)) && PowerOn(ram).config == 0 && PowerOn(ram).ram == ram
    ensures var t := Step(rom, s, BusReset); Ready(t) && t.config == s.config && t.ram == s.ram
  {
  }
}
