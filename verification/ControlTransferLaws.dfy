/**
 Laws of endpoint 0: descriptors arrive whole, the cursor never leaves the descriptor it
 serves, and the device address changes only when it should.
 */
module ControlTransferLaws {
  import opened Wrappers
  import opened SharedRam
  import opened ControlTransfer

  // ---------------------------------------------------------------- descriptor reassembly

  // The j-th packet (from 0) of a transfer of m bytes covers [From, From + |packet|).
  function From(m: nat, j: nat): nat { Min(m, EP0_SIZE * j) }

  // The engine after SETUP and j completed INs of a descriptor read of m bytes.
  ghost predicate Serving(rom: Rom, s: Engine, r: Region, m: nat, j: nat)
    requires rom.Wf() && s.Wf()
  {
    && m <= r.size && r.base + r.size <= CODE_SPACE
    && s.request == GET_DESCRIPTOR && s.tx == Ack
    && s.txToggle == (j % 2 == 0)
    && s.txLen == From(m, j + 1) - From(m, j)
    && s.Packet() == rom.code[r.base + From(m, j)..r.base + From(m, j + 1)]
    && s.setupLen == m - From(m, j + 1)
    && s.descr == (r.base + From(m, j + 1)) % CODE_SPACE
  }

  lemma ChunkIsNextPart(rom: Rom, s: Engine, r: Region, m: nat, j: nat)
    requires rom.Wf() && s.Wf() && m <= r.size && r.base + r.size <= CODE_SPACE
    requires s.setupLen == m - From(m, j) && s.descr == (r.base + From(m, j)) % CODE_SPACE
    ensures var t := ServeChunk(rom, s);
            t.txLen == From(m, j + 1) - From(m, j)
            && t.Packet() == rom.code[r.base + From(m, j)..r.base + From(m, j + 1)]
            && t.setupLen == m - From(m, j + 1)
            && t.descr == (r.base + From(m, j + 1)) % CODE_SPACE
  {
    var len, from := Min(s.setupLen, EP0_SIZE), r.base + From(m, j);
    NextPart(m, j);
    ModAdvance(from, len);
    if len > 0 {
      SmallAddress(from);
      CopiedBytes(s.ram, rom.code, from, len);
    }
  }

  lemma ModAdvance(a: nat, len: nat)
    requires a <= CODE_SPACE && len <= EP0_SIZE
    ensures (a % CODE_SPACE + len) % CODE_SPACE == (a + len) % CODE_SPACE
  {
  }

  lemma NextPart(m: nat, j: nat)
    ensures From(m, j + 1) == From(m, j) + Min(m - From(m, j), EP0_SIZE) <= m
  {
  }

  lemma SmallAddress(a: nat)
    requires a < CODE_SPACE
    ensures a % CODE_SPACE == a
  {
  }

  lemma CopiedBytes(ram: Ram, code: seq<bv8>, from: nat, len: nat)
    requires |ram| == RAM_SIZE && |code| == CODE_SPACE && 0 < len <= EP0_SIZE && from + len <= CODE_SPACE
    ensures CopyDescr(ram, code, from, len)[..len] == code[from..from + len]
  {
    forall i | 0 <= i < len
      ensures CopyDescr(ram, code, from, len)[i] == code[from + i]
    {
      SmallAddress(from + i);
    }
  }

  lemma SetupStartsServing(rom: Rom, s: Engine, q: Setup, r: Region)
    requires rom.Wf() && s.Wf()
    requires q.Standard() && q.request == GET_DESCRIPTOR && rom.Find(q) == Found(r)
    ensures Serving(rom, OnSetup(rom, s, q, SETUP_SIZE), r, Min(q.Length(), r.size), 0)
  {
    var m := Min(q.Length(), r.size);
    var started := s.(setupLen := m, request := q.request, descr := r.base);
    assert r in rom.Regions();
    assert From(m, 0) == 0;
    ChunkIsNextPart(rom, started, r, m, 0);
    assert OnSetup(rom, s, q, SETUP_SIZE) == AckedSetup(ServeChunk(rom, started), ServeChunk(rom, started).txLen);
  }

  lemma InKeepsServing(rom: Rom, s: Engine, r: Region, m: nat, j: nat)
    requires rom.Wf() && s.Wf() && Serving(rom, s, r, m, j)
    ensures Serving(rom, OnIn(rom, s), r, m, j + 1)
  {
    ChunkIsNextPart(rom, s, r, m, j + 1);
  }

  function AfterIns(rom: Rom, s: Engine, n: nat): (t: Engine)
    requires rom.Wf() && s.Wf()
    ensures t.Wf()
  {
    if n == 0 then s else OnIn(rom, AfterIns(rom, s, n - 1))
  }

  lemma {:induction false} ServingContinues(rom: Rom, s: Engine, r: Region, m: nat, n: nat)
    requires rom.Wf() && s.Wf() && Serving(rom, s, r, m, 0)
    ensures Serving(rom, AfterIns(rom, s, n), r, m, n)
  {
    if n > 0 {
      ServingContinues(rom, s, r, m, n - 1);
      InKeepsServing(rom, AfterIns(rom, s, n - 1), r, m, n - 1);
    }
  }

  lemma JoinedTo(code: seq<bv8>, x: seq<bv8>, y: seq<bv8>, a: nat, b: nat, c: nat)
    requires a <= b <= c <= |code| && x == code[a..b] && y == code[b..c]
    ensures x + y == code[a..c]
  {
  }

  // The first n packets the host collects.
  function Collected(rom: Rom, s: Engine, n: nat): seq<bv8>
    requires rom.Wf() && s.Wf()
  {
    if n == 0 then [] else Collected(rom, s, n - 1) + AfterIns(rom, s, n - 1).Packet()
  }

  ghost predicate CollectsPrefix(rom: Rom, s: Engine, r: Region, m: nat, n: nat)
    requires rom.Wf() && s.Wf()
  {
    r.base + From(m, n) <= |rom.code| && Collected(rom, s, n) == rom.code[r.base..r.base + From(m, n)]
  }

  lemma {:induction false} CollectedIsPrefix(rom: Rom, s: Engine, r: Region, m: nat, n: nat)
    requires rom.Wf() && s.Wf() && Serving(rom, s, r, m, 0)
    ensures CollectsPrefix(rom, s, r, m, n)
  {
    if n == 0 {
      ServedPart(rom, s, r, m, 0);
    } else {
      CollectedIsPrefix(rom, s, r, m, n - 1);
      ServingContinues(rom, s, r, m, n - 1);
      CollectOne(rom, s, r, m, n - 1);
    }
  }

  lemma CollectOne(rom: Rom, s: Engine, r: Region, m: nat, j: nat)
    requires rom.Wf() && s.Wf() && Serving(rom, AfterIns(rom, s, j), r, m, j)
    requires CollectsPrefix(rom, s, r, m, j)
    ensures CollectsPrefix(rom, s, r, m, j + 1)
  {
    var last := AfterIns(rom, s, j);
    ServedPart(rom, last, r, m, j);
    JoinedTo(rom.code, Collected(rom, s, j), last.Packet(), r.base, r.base + From(m, j), r.base + From(m, j + 1));
  }

  lemma ServedPart(rom: Rom, s: Engine, r: Region, m: nat, j: nat)
    requires rom.Wf() && s.Wf() && Serving(rom, s, r, m, j)
    ensures From(m, j) <= From(m, j + 1) <= m && r.base + m <= |rom.code|
    ensures s.Packet() == rom.code[r.base + From(m, j)..r.base + From(m, j + 1)]
  {
  }

  // Full packets, then one short one, which is empty when m is a multiple of 64.
  function PacketSize(m: nat, j: nat): nat {
    if j < m / EP0_SIZE then EP0_SIZE else if j == m / EP0_SIZE then m % EP0_SIZE else 0
  }

  // For every descriptor and every requested length: all packets before number m/64 are
  // full, that one is short, toggles alternate from DATA1, and the packets up to and
  // including the short one are exactly the first m bytes of the descriptor.
  lemma DescriptorArrivesWhole(rom: Rom, s: Engine, q: Setup, r: Region, j: nat)
    requires rom.Wf() && s.Wf()
    requires q.Standard() && q.request == GET_DESCRIPTOR && rom.Find(q) == Found(r)
    ensures var m, t := Min(q.Length(), r.size), OnSetup(rom, s, q, SETUP_SIZE);
            OffersPacket(AfterIns(rom, t, j), m, j) && CollectsAll(rom, t, r, m)
  {
    var m, t := Min(q.Length(), r.size), OnSetup(rom, s, q, SETUP_SIZE);
    SetupStartsServing(rom, s, q, r);
    PacketArrives(rom, t, r, m, j);
    AllArrives(rom, t, r, m);
  }

  ghost predicate OffersPacket(s: Engine, m: nat, j: nat)
    requires s.Wf()
  {
    s.tx == Ack && s.txToggle == (j % 2 == 0) && |s.Packet()| == PacketSize(m, j)
  }

  ghost predicate CollectsAll(rom: Rom, s: Engine, r: Region, m: nat)
    requires rom.Wf() && s.Wf()
  {
    r.base + m <= CODE_SPACE && Collected(rom, s, m / EP0_SIZE + 1) == rom.code[r.base..r.base + m]
  }

  lemma AllArrives(rom: Rom, t: Engine, r: Region, m: nat)
    requires rom.Wf() && t.Wf() && Serving(rom, t, r, m, 0)
    ensures CollectsAll(rom, t, r, m)
  {
    CollectedIsPrefix(rom, t, r, m, m / EP0_SIZE + 1);
    LastPart(m);
  }

  lemma PacketArrives(rom: Rom, t: Engine, r: Region, m: nat, j: nat)
    requires rom.Wf() && t.Wf() && Serving(rom, t, r, m, 0)
    ensures OffersPacket(AfterIns(rom, t, j), m, j)
  {
    ServingContinues(rom, t, r, m, j);
    ServedSize(rom, AfterIns(rom, t, j), r, m, j);
    PacketSizes(m, j);
  }

  lemma ServedSize(rom: Rom, s: Engine, r: Region, m: nat, j: nat)
    requires rom.Wf() && s.Wf() && Serving(rom, s, r, m, j)
    ensures |s.Packet()| == From(m, j + 1) - From(m, j)
  {
  }

  lemma PacketSizes(m: nat, j: nat)
    ensures From(m, j + 1) - From(m, j) == PacketSize(m, j)
  {
  }

  lemma LastPart(m: nat)
    ensures From(m, m / EP0_SIZE + 1) == m
  {
  }

  // ---------------------------------------------------------------- every interleaving

  datatype Latest = NoSetup | Latest(setup: Setup)

  // The engine together with the last well-formed SETUP packet.
  datatype Session = Session(engine: Engine, latest: Latest)

  function Next(rom: Rom, s: Session, e: Event): (t: Session)
    requires rom.Wf() && s.engine.Wf()
    ensures t.engine.Wf()
  {
    Session(Step(rom, s.engine, e),
            match e
            case SetupToken(q, rxLen) => if rxLen == SETUP_SIZE then Latest(q) else NoSetup
            case _ => s.latest)
  }

  function Run(rom: Rom, s: Session, events: seq<Event>): (t: Session)
    requires rom.Wf() && s.engine.Wf()
    ensures t.engine.Wf()
    decreases events
  {
    if events == [] then s else Run(rom, Next(rom, s, events[0]), events[1..])
  }

  ghost predicate PossibleRun(rom: Rom, s: Session, events: seq<Event>)
    requires rom.Wf() && s.engine.Wf()
    decreases events
  {
    events != [] ==>
      Possible(s.engine, events[0]) && PossibleRun(rom, Next(rom, s, events[0]), events[1..])
  }

  // The cursor and length delimit the unsent rest of what the latest SETUP asked for.
  ghost predicate CursorIn(rom: Rom, s: Engine, q: Setup)
    requires rom.Wf() && s.Wf()
  {
    && q.Standard() && q.request == GET_DESCRIPTOR && rom.Find(q).Found?
    && var r := rom.Find(q).region;
       var m := Min(q.Length(), r.size);
       s.setupLen <= m && s.descr == (r.base + m - s.setupLen) % CODE_SPACE
  }

  ghost predicate Inv(rom: Rom, s: Session)
    requires rom.Wf()
  {
    && s.engine.Wf()
    && (s.engine.request == GET_DESCRIPTOR ==> s.latest.Latest? && CursorIn(rom, s.engine, s.latest.setup))
    && (s.engine.request == SET_ADDRESS ==>
          s.latest.Latest? && s.latest.setup.Standard() && s.latest.setup.request == SET_ADDRESS
          && s.engine.setupLen == s.latest.setup.valueL as nat)
    && (s.engine.tx == Stall ==> s.engine.request == NO_REQUEST)
    && s.engine.tx != Timeout
  }

  lemma ServeKeepsCursor(rom: Rom, s: Engine, q: Setup)
    requires rom.Wf() && s.Wf() && CursorIn(rom, s, q)
    ensures CursorIn(rom, ServeChunk(rom, s), q)
  {
    var r := rom.Find(q).region;
    assert r in rom.Regions();
    var m, len := Min(q.Length(), r.size), Min(s.setupLen, EP0_SIZE);
    ModAdvance(r.base + m - s.setupLen, len);
  }

  lemma FoundDescriptorKeepsInv(rom: Rom, s: Engine, q: Setup)
    requires rom.Wf() && s.Wf() && q.Standard() && q.request == GET_DESCRIPTOR && rom.Find(q).Found?
    ensures CursorIn(rom, OnSetup(rom, s, q, SETUP_SIZE), q)
    ensures OnSetup(rom, s, q, SETUP_SIZE).request == GET_DESCRIPTOR
    ensures OnSetup(rom, s, q, SETUP_SIZE).tx == Ack
  {
    var r := rom.Find(q).region;
    assert r in rom.Regions();
    var started := s.(setupLen := Min(q.Length(), r.size), request := q.request, descr := r.base);
    ServeKeepsCursor(rom, started, q);
    assert OnSetup(rom, s, q, SETUP_SIZE) == AckedSetup(ServeChunk(rom, started), ServeChunk(rom, started).txLen);
  }

  // Every other SETUP either stalls, forgetting the request, or is acknowledged as it is.
  lemma OtherSetupOutcome(rom: Rom, s: Engine, q: Setup)
    requires rom.Wf() && s.Wf() && q.Standard() && !(q.request == GET_DESCRIPTOR && rom.Find(q).Found?)
    ensures var t := OnSetup(rom, s, q, SETUP_SIZE);
            (t.request == NO_REQUEST && t.tx == Stall)
            || (t.request == q.request && t.tx == Ack && q.request != GET_DESCRIPTOR
                && (q.request == SET_ADDRESS ==> t.setupLen == q.valueL as nat))
  {
  }

  predicate SameDevice(s: Engine, t: Engine) { t.address == s.address && t.config == s.config }

  lemma ServeKeepsDevice(rom: Rom, s: Engine)
    requires rom.Wf() && s.Wf()
    ensures SameDevice(s, ServeChunk(rom, s)) && ServeChunk(rom, s).halves == s.halves
  {
  }

  lemma GetDescriptorKeepsDevice(rom: Rom, s: Engine, q: Setup)
    requires rom.Wf() && s.Wf() && q.request == GET_DESCRIPTOR
    ensures SameDevice(s, OnStandardRequest(rom, s, q)) && OnStandardRequest(rom, s, q).halves == s.halves
  {
    match rom.Find(q)
    case Unsupported =>
    case Found(r) => ServeKeepsDevice(rom, s.(setupLen := Min(s.setupLen, r.size), descr := r.base));
  }

  lemma FeatureKeepsDevice(s: Engine, q: Setup, supported: bool, tx: Response, rx: Response)
    requires s.Wf()
    ensures SameDevice(s, OnFeature(s, q, supported, tx, rx))
  {
  }

  lemma StandardKeepsDevice(rom: Rom, s: Engine, q: Setup)
    requires rom.Wf() && s.Wf() && q.request != SET_CONFIGURATION
    ensures SameDevice(s, OnStandardRequest(rom, s, q))
  {
    if q.request == GET_DESCRIPTOR {
      GetDescriptorKeepsDevice(rom, s, q);
    } else if q.request == CLEAR_FEATURE {
      FeatureKeepsDevice(s, q, ClearFeatureSupported(rom, q), Nak, Ack);
    } else if q.request == SET_FEATURE {
      FeatureKeepsDevice(s, q, SetFeatureSupported(rom, q), Stall, Stall);
    }
  }

  lemma SetupKeepsAddress(rom: Rom, s: Engine, q: Setup, rxLen: nat)
    requires rom.Wf() && s.Wf()
    ensures OnSetup(rom, s, q, rxLen).address == s.address
  {
    if q.request != SET_CONFIGURATION {
      StandardKeepsDevice(rom, s.(setupLen := q.Length(), request := q.request), q);
    }
  }

  lemma SetupKeepsInv(rom: Rom, s: Session, q: Setup, rxLen: nat)
    requires rom.Wf() && Inv(rom, s)
    ensures Inv(rom, Next(rom, s, SetupToken(q, rxLen)))
  {
    if rxLen == SETUP_SIZE && q.Standard() {
      if q.request == GET_DESCRIPTOR && rom.Find(q).Found? {
        FoundDescriptorKeepsInv(rom, s.engine, q);
      } else {
        OtherSetupOutcome(rom, s.engine, q);
      }
    }
  }

  lemma StepKeepsInv(rom: Rom, s: Session, e: Event)
    requires rom.Wf() && Inv(rom, s) && Possible(s.engine, e)
    ensures Inv(rom, Next(rom, s, e))
  {
    match e
    case SetupToken(q, rxLen) => SetupKeepsInv(rom, s, q, rxLen);
    case InDone =>
      if s.engine.request == GET_DESCRIPTOR {
        ServeKeepsCursor(rom, s.engine, s.latest.setup);
      }
    case OutDone =>
    case BusReset =>
    case Elsewhere(_) =>
  }

  lemma {:induction false} RunKeepsInv(rom: Rom, s: Session, events: seq<Event>)
    requires rom.Wf() && Inv(rom, s) && PossibleRun(rom, s, events)
    ensures Inv(rom, Run(rom, s, events))
    decreases events
  {
    if events != [] {
      StepKeepsInv(rom, s, events[0]);
      RunKeepsInv(rom, Next(rom, s, events[0]), events[1..]);
    }
  }

  // Over every interleaving of SETUP, IN, OUT and reset since power-on, the bytes the next
  // IN would copy, if any, lie inside the one descriptor the latest SETUP asked for.
  lemma CopiesStayInsideTheDescriptor(rom: Rom, ram: Ram, events: seq<Event>)
    requires rom.Wf() && |ram| == RAM_SIZE && PossibleRun(rom, Session(PowerOn(ram), NoSetup), events)
    ensures var s := Run(rom, Session(PowerOn(ram), NoSetup), events);
            Inv(rom, s)
            && (s.engine.request == GET_DESCRIPTOR && s.engine.setupLen > 0 ==>
                  var r := rom.Find(s.latest.setup).region;
                  r.base <= s.engine.descr && s.engine.descr + s.engine.setupLen <= r.base + r.size)
  {
    RunKeepsInv(rom, Session(PowerOn(ram), NoSetup), events);
    var s := Run(rom, Session(PowerOn(ram), NoSetup), events);
    if s.engine.request == GET_DESCRIPTOR && s.engine.setupLen > 0 {
      CursorIsInside(rom, s);
    }
  }

  lemma CursorIsInside(rom: Rom, s: Session)
    requires rom.Wf() && Inv(rom, s) && s.engine.request == GET_DESCRIPTOR && s.engine.setupLen > 0
    ensures var r := rom.Find(s.latest.setup).region;
            r.base <= s.engine.descr && s.engine.descr + s.engine.setupLen <= r.base + r.size
  {
    assert rom.Find(s.latest.setup).region in rom.Regions();
  }

  // ---------------------------------------------------------------- deferred address

  lemma InSetsAddress(rom: Rom, s: Session)
    requires rom.Wf() && Inv(rom, s)
    ensures OnIn(rom, s.engine).address ==
      if s.engine.request == SET_ADDRESS then (s.engine.address & ADDRESS_GP_BIT) | s.latest.setup.valueL
      else s.engine.address
  {
    if s.engine.request == SET_ADDRESS {
      ByteRoundTrip(s.latest.setup.valueL);
    }
  }

  lemma ByteRoundTrip(b: bv8)
    ensures (b as nat % 256) as bv8 == b
  {
    NatOfByte(b);
    SmallModulo(b as nat);
  }

  // The address changes in two ways only: to 0 on a bus reset, and to the requested value
  // when the status stage of the latest SETUP, a SET_ADDRESS, completes.
  lemma AddressChangesOnlyWhenDue(rom: Rom, s: Session, e: Event)
    requires rom.Wf() && Inv(rom, s) && Possible(s.engine, e)
    requires Next(rom, s, e).engine.address != s.engine.address
    ensures (e == BusReset && Next(rom, s, e).engine.address == 0)
            || (e == InDone && s.latest.Latest? && s.latest.setup.Standard()
                && s.latest.setup.request == SET_ADDRESS
                && Next(rom, s, e).engine.address == (s.engine.address & ADDRESS_GP_BIT) | s.latest.setup.valueL)
  {
    match e
    case SetupToken(q, rxLen) => SetupKeepsAddress(rom, s.engine, q, rxLen);
    case InDone => InSetsAddress(rom, s);
    case OutDone =>
    case BusReset =>
    case Elsewhere(_) =>
  }

  // The host's address arrives and the general-purpose bit stays, for every address the
  // specification allows.
  lemma AddressArrives(gp: bv8, value: bv8)
    requires value < 0x80
    ensures ((gp & ADDRESS_GP_BIT) | value) & 0x7F == value
    ensures ((gp & ADDRESS_GP_BIT) | value) & ADDRESS_GP_BIT == gp & ADDRESS_GP_BIT
  {
  }

  ghost predicate NoSetupIn(events: seq<Event>) {
    forall e :: e in events ==> !e.SetupToken? && !e.BusReset?
  }

  // The first thing to happen on endpoint 0 is the completion of an IN.
  predicate StatusStageFirst(events: seq<Event>)
    decreases events
  {
    events != [] && (events[0] == InDone || (events[0].Elsewhere? && StatusStageFirst(events[1..])))
  }

  // After SET_ADDRESS the old address stays until the first IN completes, and the new one
  // stays from then on, until another SETUP or a bus reset. An OUT in its place abandons
  // the change.
  lemma AddressIsDeferred(rom: Rom, s: Session, q: Setup, events: seq<Event>)
    requires rom.Wf() && Inv(rom, s) && q.Standard() && q.request == SET_ADDRESS && NoSetupIn(events)
    requires PossibleRun(rom, Next(rom, s, SetupToken(q, SETUP_SIZE)), events)
    ensures var t := Run(rom, Next(rom, s, SetupToken(q, SETUP_SIZE)), events);
            t.engine.address == if StatusStageFirst(events)
                                then (s.engine.address & ADDRESS_GP_BIT) | q.valueL
                                else s.engine.address
  {
    SetupKeepsInv(rom, s, q, SETUP_SIZE);
    SetupKeepsAddress(rom, s.engine, q, SETUP_SIZE);
    AfterSetAddress(rom, Next(rom, s, SetupToken(q, SETUP_SIZE)), q, events);
  }

  lemma {:induction false} AfterSetAddress(rom: Rom, s: Session, q: Setup, events: seq<Event>)
    requires rom.Wf() && Inv(rom, s) && s.latest == Latest(q) && s.engine.request == SET_ADDRESS
    requires s.engine.tx == Ack && NoSetupIn(events) && PossibleRun(rom, s, events)
    ensures Run(rom, s, events).engine.address ==
      if StatusStageFirst(events) then (s.engine.address & ADDRESS_GP_BIT) | q.valueL else s.engine.address
    decreases events
  {
    if events != [] {
      var e := events[0];
      assert e in events && !e.SetupToken? && !e.BusReset?;
      assert NoSetupIn(events[1..]);
      if e.Elsewhere? {
        StepKeepsInv(rom, s, e);
        AfterSetAddress(rom, Next(rom, s, e), q, events[1..]);
      } else {
        FirstEventAfterSetAddress(rom, s, q, e);
        QuietAddress(rom, Next(rom, s, e), events[1..]);
      }
    }
  }

  lemma FirstEventAfterSetAddress(rom: Rom, s: Session, q: Setup, e: Event)
    requires rom.Wf() && Inv(rom, s) && s.latest == Latest(q) && s.engine.request == SET_ADDRESS
    requires s.engine.tx == Ack && Possible(s.engine, e) && (e == InDone || e == OutDone)
    ensures Inv(rom, Next(rom, s, e)) && Next(rom, s, e).engine.tx == Nak
    ensures Next(rom, s, e).engine.address ==
      if e == InDone then (s.engine.address & ADDRESS_GP_BIT) | q.valueL else s.engine.address
  {
    StepKeepsInv(rom, s, e);
    InSetsAddress(rom, s);
  }

  // Once the endpoint answers NAK nothing but a SETUP or a reset touches the address.
  lemma {:induction false} QuietAddress(rom: Rom, s: Session, events: seq<Event>)
    requires rom.Wf() && Inv(rom, s) && s.engine.tx == Nak && NoSetupIn(events)
    requires PossibleRun(rom, s, events)
    ensures Run(rom, s, events).engine.address == s.engine.address
    decreases events
  {
    if events != [] {
      assert events[0] in events;
      assert events[0] == OutDone || events[0].Elsewhere?;
      StepKeepsInv(rom, s, events[0]);
      QuietAddress(rom, Next(rom, s, events[0]), events[1..]);
    }
  }

  // ---------------------------------------------------------------- configuration

  predicate Configures(e: Event) {
    e.SetupToken? && e.rxLen == SETUP_SIZE && e.setup.Standard() && e.setup.request == SET_CONFIGURATION
  }

  lemma StepKeepsConfiguration(rom: Rom, s: Session, e: Event)
    requires rom.Wf() && s.engine.Wf() && !Configures(e)
    ensures Next(rom, s, e).engine.config == s.engine.config
  {
    if e.SetupToken? {
      SetupKeepsConfiguration(rom, s.engine, e.setup, e.rxLen);
    } else if e.InDone? {
      InKeepsConfiguration(rom, s.engine);
    }
  }

  lemma SetupKeepsConfiguration(rom: Rom, s: Engine, q: Setup, rxLen: nat)
    requires rom.Wf() && s.Wf() && !Configures(SetupToken(q, rxLen))
    ensures OnSetup(rom, s, q, rxLen).config == s.config
  {
    if q.request != SET_CONFIGURATION {
      StandardKeepsDevice(rom, s.(setupLen := q.Length(), request := q.request), q);
    }
  }

  lemma InKeepsConfiguration(rom: Rom, s: Engine)
    requires rom.Wf() && s.Wf()
    ensures OnIn(rom, s).config == s.config
  {
    if s.request == GET_DESCRIPTOR {
      ServeKeepsDevice(rom, s);
    }
  }

  lemma {:induction false} RunKeepsConfiguration(rom: Rom, s: Session, events: seq<Event>)
    requires rom.Wf() && s.engine.Wf() && forall e :: e in events ==> !Configures(e)
    ensures Run(rom, s, events).engine.config == s.engine.config
    decreases events
  {
    if events != [] {
      assert events[0] in events;
      StepKeepsConfiguration(rom, s, events[0]);
      RunKeepsConfiguration(rom, Next(rom, s, events[0]), events[1..]);
    }
  }

  // GET_CONFIGURATION gets the value of the last SET_CONFIGURATION, whatever happened in
  // between; even a bus reset does not forget it.
  lemma ConfigurationIsRemembered(rom: Rom, s: Session, q: Setup, events: seq<Event>, g: Setup)
    requires rom.Wf() && s.engine.Wf() && forall e :: e in events ==> !Configures(e)
    requires Configures(SetupToken(q, SETUP_SIZE))
    requires g.Standard() && g.request == GET_CONFIGURATION && g.Length() > 0
    ensures var t := Run(rom, Next(rom, s, SetupToken(q, SETUP_SIZE)), events);
            var p := OnSetup(rom, t.engine, g, SETUP_SIZE);
            p.tx == Ack && p.Packet() == [q.valueL]
  {
    RunKeepsConfiguration(rom, Next(rom, s, SetupToken(q, SETUP_SIZE)), events);
  }

  // ---------------------------------------------------------------- the closing copy

  // The step answers with a chunk although nothing is left to send.
  predicate ServesEmptyChunk(rom: Rom, s: Engine, e: Event) {
    match e
    case SetupToken(q, rxLen) =>
      rxLen == SETUP_SIZE && q.Standard() && q.request == GET_DESCRIPTOR && rom.Find(q).Found? && q.Length() == 0
    case InDone => s.request == GET_DESCRIPTOR && s.setupLen == 0
    case _ => false
  }

  // Such a step, and no other, may change something outside endpoint 0's buffer: every
  // other leaves it alone whatever RAM holds.
  lemma StepIsConfinedExactly(rom: Rom, s: Engine, e: Event)
    requires rom.Wf() && s.Wf()
    ensures !ServesEmptyChunk(rom, s, e) <==>
      forall ram: Ram :: |ram| == RAM_SIZE ==> LeavesOthersAlone(ram, Step(rom, s.(ram := ram), e).ram)
  {
    if ServesEmptyChunk(rom, s, e) {
      EmptyChunkIsNotConfined(rom, s, e);
    } else {
      forall ram: Ram | |ram| == RAM_SIZE ensures LeavesOthersAlone(ram, Step(rom, s.(ram := ram), e).ram) {
        OtherStepsAreConfined(rom, s.(ram := ram), e);
      }
    }
  }

  lemma OtherStepsAreConfined(rom: Rom, s: Engine, e: Event)
    requires rom.Wf() && s.Wf() && !ServesEmptyChunk(rom, s, e)
    ensures LeavesOthersAlone(s.ram, Step(rom, s, e).ram)
  {
    match e
    case SetupToken(q, rxLen) =>
      if rxLen == SETUP_SIZE && q.Standard() {
        SetupIsConfined(rom, s.(setupLen := q.Length(), request := q.request), q);
      }
    case InDone =>
      if s.request == GET_DESCRIPTOR {
        ChunksAreConfined(rom, s);
      }
    case OutDone =>
    case BusReset =>
    case Elsewhere(_) =>
  }

  lemma SetupIsConfined(rom: Rom, s: Engine, q: Setup)
    requires rom.Wf() && s.Wf() && s.setupLen == q.Length()
    requires q.request == GET_DESCRIPTOR && rom.Find(q).Found? ==> q.Length() > 0
    ensures LeavesOthersAlone(s.ram, OnStandardRequest(rom, s, q).ram)
  {
    if q.request == GET_DESCRIPTOR {
      if rom.Find(q).Found? {
        var r := rom.Find(q).region;
        assert r in rom.Regions();
        ChunksAreConfined(rom, s.(setupLen := Min(s.setupLen, r.size), descr := r.base));
      }
    } else {
      OtherRequestsAreConfined(rom, s, q);
    }
  }

  lemma OtherRequestsAreConfined(rom: Rom, s: Engine, q: Setup)
    requires rom.Wf() && s.Wf() && q.request != GET_DESCRIPTOR
    ensures LeavesOthersAlone(s.ram, OnStandardRequest(rom, s, q).ram)
  {
  }

  // The copy such a step makes: from the cursor, of length 0.
  function EmptySource(rom: Rom, s: Engine, e: Event): nat {
    if e.SetupToken? && rom.Find(e.setup).Found? then rom.Find(e.setup).region.base else s.descr
  }

  lemma EmptyChunkCopies(rom: Rom, s: Engine, e: Event)
    requires rom.Wf() && s.Wf() && ServesEmptyChunk(rom, s, e)
    ensures Step(rom, s, e).ram == CopyDescr(s.ram, rom.code, EmptySource(rom, s, e), 0)
  {
    if e.SetupToken? {
      EmptyReadCopies(rom, s.(setupLen := 0, request := GET_DESCRIPTOR), e.setup);
    }
  }

  lemma EmptyReadCopies(rom: Rom, s: Engine, q: Setup)
    requires rom.Wf() && s.Wf() && s.setupLen == 0 && q.request == GET_DESCRIPTOR && rom.Find(q).Found?
    ensures OnStandardRequest(rom, s, q).ram == CopyDescr(s.ram, rom.code, rom.Find(q).region.base, 0)
  {
  }

  lemma EmptyChunkIsNotConfined(rom: Rom, s: Engine, e: Event)
    requires rom.Wf() && s.Wf() && ServesEmptyChunk(rom, s, e)
    ensures exists ram: Ram :: |ram| == RAM_SIZE && !LeavesOthersAlone(ram, Step(rom, s.(ram := ram), e).ram)
  {
    var source := EmptySource(rom, s, e);
    var other := !rom.code[(source + EP0_SIZE) % CODE_SPACE];
    var ram: Ram := seq(RAM_SIZE, _ => other);
    EmptyChunkCopies(rom, s.(ram := ram), e);
    assert CopyDescr(ram, rom.code, source, 0)[EP0_SIZE] == CopyByte(ram, rom.code, source, 0, EP0_SIZE);
    Differs(rom.code[(source + EP0_SIZE) % CODE_SPACE]);
    assert ram[EP0_SIZE] == other;
    assert !LeavesOthersAlone(ram, Step(rom, s.(ram := ram), e).ram);
  }

  lemma Differs(b: bv8)
    ensures !b != b
  {
  }

  // A chunk of at least one byte touches nothing beyond endpoint 0's buffer.
  lemma ChunksAreConfined(rom: Rom, s: Engine)
    requires rom.Wf() && s.Wf() && s.setupLen > 0
    ensures LeavesOthersAlone(s.ram, ServeChunk(rom, s).ram)
  {
    CopyIsConfinedExactly(Min(s.setupLen, EP0_SIZE));
  }

  // And every such step overwrites all of it: each endpoint window then holds code memory
  // instead of its packet.
  lemma EmptyChunkOverwritesEveryWindow(rom: Rom, s: Engine, e: Event, w: nat)
    requires rom.Wf() && s.Wf() && ServesEmptyChunk(rom, s, e) && w < |OTHER_WINDOWS|
    requires EmptySource(rom, s, e) + VARIABLES <= CODE_SPACE
    ensures var from := EmptySource(rom, s, e);
            Slice(Step(rom, s, e).ram, OTHER_WINDOWS[w])
            == rom.code[from + OTHER_WINDOWS[w].start..from + OTHER_WINDOWS[w].End()]
            && Step(rom, s, e).ram[VARIABLES..] == s.ram[VARIABLES..]
  {
    EmptyChunkCopies(rom, s, e);
    EmptyCopyOverwritesEveryWindow(s.ram, rom.code, EmptySource(rom, s, e), w);
  }

  // So it is when a host asks for 0 bytes of a descriptor.
  lemma EmptyReadOverwritesEveryWindow(rom: Rom, s: Engine, q: Setup, r: Region, w: nat)
    requires rom.Wf() && s.Wf() && q.Standard() && q.request == GET_DESCRIPTOR && rom.Find(q) == Found(r)
    requires q.Length() == 0 && w < |OTHER_WINDOWS| && r.base + VARIABLES <= CODE_SPACE
    ensures Slice(OnSetup(rom, s, q, SETUP_SIZE).ram, OTHER_WINDOWS[w]) ==
      rom.code[r.base + OTHER_WINDOWS[w].start..r.base + OTHER_WINDOWS[w].End()]
  {
    EmptyChunkOverwritesEveryWindow(rom, s, SetupToken(q, SETUP_SIZE), w);
  }

  // And when the host has collected the last byte of a descriptor: the completing IN copies
  // once more.
  lemma LastInOverwritesEveryWindow(rom: Rom, s: Engine, r: Region, m: nat, j: nat, w: nat)
    requires rom.Wf() && s.Wf() && Serving(rom, s, r, m, j) && m <= EP0_SIZE * (j + 1)
    requires w < |OTHER_WINDOWS| && r.base + m + VARIABLES <= CODE_SPACE
    ensures Slice(OnIn(rom, s).ram, OTHER_WINDOWS[w]) ==
      rom.code[r.base + m + OTHER_WINDOWS[w].start..r.base + m + OTHER_WINDOWS[w].End()]
  {
    assert s.setupLen == 0 && s.descr == r.base + m;
    EmptyCopyOverwritesEveryWindow(s.ram, rom.code, s.descr, w);
  }
}
