/**
 Endpoint 0 of include/usb_handler.c: one step per SETUP, IN, OUT or bus-reset interrupt.
 Sections 8.5.3, 9.4.3 and 9.4.6 of the USB 2.0 specification describe what a host expects.
 */
module ControlTransfer {
  import opened Wrappers
  import opened SharedRam

  const GET_STATUS: bv8 := 0x00
  const CLEAR_FEATURE: bv8 := 0x01
  const SET_FEATURE: bv8 := 0x03
  const SET_ADDRESS: bv8 := 0x05
  const GET_DESCRIPTOR: bv8 := 0x06
  const GET_CONFIGURATION: bv8 := 0x08
  const SET_CONFIGURATION: bv8 := 0x09
  const GET_INTERFACE: bv8 := 0x0A
  const SET_INTERFACE: bv8 := 0x0B
  const NO_REQUEST: bv8 := 0xFF

  const TYPE_DEVICE: bv8 := 0x01
  const TYPE_CONFIG: bv8 := 0x02
  const TYPE_STRING: bv8 := 0x03
  const TYPE_REPORT: bv8 := 0x22

  const RECIPIENT_DEVICE: bv8 := 0
  const RECIPIENT_ENDPOINT: bv8 := 2

  const SETUP_SIZE := 8
  const FAILED := 0xFF

  datatype Setup = Setup(requestType: bv8, request: bv8, valueL: bv8, valueH: bv8,
                         indexL: bv8, indexH: bv8, lengthL: bv8, lengthH: bv8) {
    function Length(): nat { lengthH as nat * 256 + lengthL as nat }

    predicate Standard() { requestType & 0x60 == 0 }

    function Recipient(): bv8 { requestType & 0x1F }
  }

  // A descriptor in code memory.
  datatype Region = Region(base: nat, size: nat)

  // Code memory and where the descriptors are in it. Their contents are arbitrary; their
  // sizes fit the source's 8-bit length and are not the failure value, and a string
  // descriptor starts with its own size, which is where the source takes it from.
  datatype Rom = Rom(code: seq<bv8>, device: Region, config: Region, report: Region, rawReport: Region,
                     language: Region, manufacturer: Region, product: Region, interfaceName: Region) {
    ghost predicate Wf() {
      && |code| == CODE_SPACE
      && (forall r :: r in Regions() ==> 0 < r.size < FAILED && r.base + r.size <= CODE_SPACE)
      && (forall r :: r in [language, manufacturer, product, interfaceName] ==>
            r.base < CODE_SPACE && code[r.base] as nat == r.size)
    }

    function Regions(): seq<Region> {
      [device, config, report, rawReport, language, manufacturer, product, interfaceName]
    }

    // Bit 5 of bmAttributes, byte 7 of the configuration descriptor.
    predicate RemoteWakeup() {
      config.base + 7 < |code| && code[config.base + 7] & 0x20 != 0
    }

    function Find(q: Setup): (r: FindResult)
      ensures r.Found? ==> r.region in Regions()
    {
      if q.valueH == TYPE_DEVICE then Found(device)
      else if q.valueH == TYPE_CONFIG then Found(config)
      else if q.valueH == TYPE_STRING then
        Found(if q.valueL == 1 then manufacturer
              else if q.valueL == 2 then product
              else if q.valueL == 4 then interfaceName
              else language)
      else if q.valueH == TYPE_REPORT then
        if q.indexL == 0 then Found(report)
        else if q.indexL == 1 then Found(rawReport)
        else Unsupported
      else Unsupported
    }
  }

  datatype FindResult = Unsupported | Found(region: Region)

  // The result of OR-ing the NAK code (binary 10) into a response field.
  function OrNak(r: Response): Response {
    match r
    case Ack => Nak
    case Timeout => Stall
    case Nak => Nak
    case Stall => Stall
  }

  // One direction of another endpoint: the answer it gives and its data toggle.
  datatype Half = Half(response: Response, toggle: bool)

  datatype Halves = Halves(ep1Tx: Half, ep1Rx: Half, ep2Tx: Half, ep2Rx: Half)

  // What HID_setup and HID_reset set.
  const OPEN_HALVES := Halves(Half(Nak, false), Half(Ack, false), Half(Nak, false), Half(Ack, false))

  datatype Engine = Engine(setupLen: nat, request: bv8, config: bv8, descr: nat,
                           txLen: nat, txToggle: bool, rxToggle: bool, tx: Response, rx: Response,
                           address: bv8, halves: Halves, ram: Ram) {
    ghost predicate Wf() {
      && setupLen < 0x1_0000 && descr < CODE_SPACE
      && txLen <= EP0_SIZE
      && |ram| == RAM_SIZE
    }

    // What the host gets from the next IN token.
    function Packet(): seq<bv8>
      requires Wf()
    {
      ram[..txLen]
    }
  }

  // ---------------------------------------------------------------- SETUP

  // Copies the next chunk and advances the cursor past it.
  function ServeChunk(rom: Rom, s: Engine): (t: Engine)
    requires rom.Wf() && s.Wf()
    ensures t.Wf()
  {
    var len := Min(s.setupLen, EP0_SIZE);
    s.(ram := CopyDescr(s.ram, rom.code, s.descr, len),
       setupLen := s.setupLen - len,
       descr := (s.descr + len) % CODE_SPACE,
       txLen := len)
  }

  function StalledSetup(s: Engine): (t: Engine)
    requires s.Wf()
    ensures t.Wf()
  {
    s.(request := NO_REQUEST, txToggle := true, rxToggle := true, tx := Stall, rx := Stall)
  }

  // Data stage or status stage: expect and send DATA1 next.
  function AckedSetup(s: Engine, len: nat): (t: Engine)
    requires s.Wf() && len <= EP0_SIZE
    ensures t.Wf()
  {
    s.(txLen := len, txToggle := true, rxToggle := true, tx := Ack, rx := Ack)
  }

  predicate FeatureEndpoint(index: bv8) {
    index == 0x82 || index == 0x02 || index == 0x81 || index == 0x01
  }

  predicate ClearFeatureSupported(rom: Rom, q: Setup) {
    if q.Recipient() == RECIPIENT_DEVICE then q.valueH == 0 && q.valueL == 1 && rom.RemoteWakeup()
    else q.Recipient() == RECIPIENT_ENDPOINT && FeatureEndpoint(q.indexL)
  }

  predicate SetFeatureSupported(rom: Rom, q: Setup) {
    if q.Recipient() == RECIPIENT_DEVICE then q.valueH == 0 && q.valueL == 1 && rom.RemoteWakeup()
    else
      && q.Recipient() == RECIPIENT_ENDPOINT
      && q.valueH == 0 && q.valueL == 0
      && q.indexH == 0 && FeatureEndpoint(q.indexL)
  }

  // A supported halt request addressed to an endpoint sets one half and its toggle.
  function HalvesAfter(h: Halves, q: Setup, tx: Response, rx: Response): Halves {
    if q.Recipient() != RECIPIENT_ENDPOINT then h
    else if q.indexL == 0x82 then h.(ep2Tx := Half(tx, false))
    else if q.indexL == 0x02 then h.(ep2Rx := Half(rx, false))
    else if q.indexL == 0x81 then h.(ep1Tx := Half(tx, false))
    else if q.indexL == 0x01 then h.(ep1Rx := Half(rx, false))
    else h
  }

  function OnFeature(s: Engine, q: Setup, supported: bool, tx: Response, rx: Response): (t: Engine)
    requires s.Wf()
    ensures t.Wf()
  {
    if supported then AckedSetup(s.(halves := HalvesAfter(s.halves, q, tx, rx)), 0) else StalledSetup(s)
  }

  function OnStandardRequest(rom: Rom, s: Engine, q: Setup): (t: Engine)
    requires rom.Wf() && s.Wf()
    ensures t.Wf()
  {
    if q.request == GET_DESCRIPTOR then
      match rom.Find(q)
      case Unsupported => StalledSetup(s)
      case Found(r) =>
        var served := ServeChunk(rom, s.(setupLen := Min(s.setupLen, r.size), descr := r.base));
        AckedSetup(served, served.txLen)
    else if q.request == SET_ADDRESS then AckedSetup(s.(setupLen := q.valueL as nat), 0)
    else if q.request == GET_CONFIGURATION then
      AckedSetup(s.(ram := s.ram[0 := s.config]), Min(s.setupLen, 1))
    else if q.request == SET_CONFIGURATION then AckedSetup(s.(config := q.valueL), 0)
    else if q.request == GET_INTERFACE || q.request == SET_INTERFACE then AckedSetup(s, 0)
    else if q.request == CLEAR_FEATURE then OnFeature(s, q, ClearFeatureSupported(rom, q), Nak, Ack)
    else if q.request == SET_FEATURE then OnFeature(s, q, SetFeatureSupported(rom, q), Stall, Stall)
    else if q.request == GET_STATUS then
      AckedSetup(s.(ram := s.ram[0 := 0][1 := 0]), Min(s.setupLen, 2))
    else StalledSetup(s)
  }

  function OnSetup(rom: Rom, s: Engine, q: Setup, rxLen: nat): (t: Engine)
    requires rom.Wf() && s.Wf()
    ensures t.Wf()
  {
    if rxLen != SETUP_SIZE then StalledSetup(s)
    else
      var r := s.(setupLen := q.Length(), request := q.request);
      if q.Standard() then OnStandardRequest(rom, r, q) else StalledSetup(r)
  }

  // ---------------------------------------------------------------- IN, OUT, bus reset

  const ADDRESS_GP_BIT: bv8 := 0x80

  function OnIn(rom: Rom, s: Engine): (t: Engine)
    requires rom.Wf() && s.Wf()
    ensures t.Wf()
  {
    if s.request == GET_DESCRIPTOR then
      ServeChunk(rom, s).(txToggle := !s.txToggle)
    else if s.request == SET_ADDRESS then
      s.(address := (s.address & ADDRESS_GP_BIT) | ((s.setupLen % 256) as bv8),
         txToggle := false, rxToggle := false, tx := Nak, rx := Ack)
    else
      s.(txLen := 0, txToggle := false, rxToggle := false, tx := Nak, rx := Ack)
  }

  function OnOut(s: Engine): (t: Engine)
    requires s.Wf()
    ensures t.Wf()
  {
    s.(txLen := 0, tx := OrNak(s.tx))
  }

  function OnBusReset(s: Engine): (t: Engine)
    requires s.Wf()
    ensures t.Wf()
  {
    s.(txToggle := false, rxToggle := false, tx := Nak, rx := Ack, address := 0, halves := OPEN_HALVES)
  }

  datatype Event =
    | SetupToken(setup: Setup, rxLen: nat)
    | InDone
    | OutDone
    | BusReset
    | Elsewhere(halves: Halves)  // endpoints 1 and 2 are used

  // The controller completes an IN or OUT only when the endpoint answers ACK; a SETUP is
  // always accepted.
  predicate Possible(s: Engine, e: Event) {
    match e
    case SetupToken(_, _) => true
    case InDone => s.tx == Ack
    case OutDone => s.rx == Ack
    case BusReset => true
    case Elsewhere(_) => true
  }

  function Step(rom: Rom, s: Engine, e: Event): (t: Engine)
    requires rom.Wf() && s.Wf()
    ensures t.Wf()
  {
    match e
    case SetupToken(q, rxLen) => OnSetup(rom, s, q, rxLen)
    case InDone => OnIn(rom, s)
    case OutDone => OnOut(s)
    case BusReset => OnBusReset(s)
    case Elsewhere(h) => s.(halves := h)
  }

  function PowerOn(ram: Ram): (s: Engine)
    requires |ram| == RAM_SIZE
    ensures s.Wf()
  {
    Engine(0, 0, 0, 0, 0, false, false, Nak, Ack, 0, OPEN_HALVES, ram)
  }

  // ---------------------------------------------------------------- the handlers in place

  class Endpoint0 {
    const rom: Rom
    const ram: array<bv8>
    var setupLen: nat
    var request: bv8
    var config: bv8
    var descr: nat
    var txLen: nat
    var txToggle: bool
    var rxToggle: bool
    var tx: Response
    var rx: Response
    var address: bv8
    var halves: Halves

    ghost function State(): Engine
      reads this, ram
    {
      Engine(setupLen, request, config, descr, txLen, txToggle, rxToggle, tx, rx, address, halves, ram[..])
    }

    ghost predicate Valid()
      reads this, ram
    {
      rom.Wf() && ram.Length == RAM_SIZE && State().Wf()
    }

    constructor (rom: Rom, ram: array<bv8>)
      requires rom.Wf() && ram.Length == RAM_SIZE
      ensures Valid() && State() == PowerOn(ram[..]) && this.rom == rom && this.ram == ram
    {
      this.rom, this.ram := rom, ram;
      setupLen, request, config, descr := 0, 0, 0, 0;
      txLen, txToggle, rxToggle, tx, rx := 0, false, false, Nak, Ack;
      address, halves := 0, OPEN_HALVES;
    }

    method CopyChunk()
      requires Valid()
      modifies this, ram
      ensures Valid() && State() == ServeChunk(rom, old(State()))
    {
      var len := if setupLen >= EP0_SIZE then EP0_SIZE else setupLen;
      CopyLoop(ram, rom.code, descr, len);
      setupLen := setupLen - len;
      descr := (descr + len) % CODE_SPACE;
      txLen := len;
    }

    method Fail()
      requires Valid()
      modifies this
      ensures Valid() && State() == StalledSetup(old(State()))
    {
      request := NO_REQUEST;
      txToggle, rxToggle, tx, rx := true, true, Stall, Stall;
    }

    method Answer(len: nat)
      requires Valid() && len <= EP0_SIZE
      modifies this
      ensures Valid() && State() == AckedSetup(old(State()), len)
    {
      txLen := len;
      txToggle, rxToggle, tx, rx := true, true, Ack, Ack;
    }

    method SetHalf(q: Setup, txAnswer: Response, rxAnswer: Response)
      requires Valid()
      modifies this`halves
      ensures Valid() && State() == old(State()).(halves := HalvesAfter(old(halves), q, txAnswer, rxAnswer))
    {
      if q.Recipient() == RECIPIENT_ENDPOINT {
        if q.indexL == 0x82 {
          halves := halves.(ep2Tx := Half(txAnswer, false));
        } else if q.indexL == 0x02 {
          halves := halves.(ep2Rx := Half(rxAnswer, false));
        } else if q.indexL == 0x81 {
          halves := halves.(ep1Tx := Half(txAnswer, false));
        } else if q.indexL == 0x01 {
          halves := halves.(ep1Rx := Half(rxAnswer, false));
        }
      }
    }

    method HandleFeature(q: Setup, supported: bool, txAnswer: Response, rxAnswer: Response)
      requires Valid()
      modifies this
      ensures Valid() && State() == OnFeature(old(State()), q, supported, txAnswer, rxAnswer)
    {
      if supported {
        SetHalf(q, txAnswer, rxAnswer);
        Answer(0);
      } else {
        Fail();
      }
    }

    method HandleStandard(q: Setup)
      requires Valid()
      modifies this, ram
      ensures Valid() && State() == OnStandardRequest(rom, old(State()), q)
    {
      if q.request == GET_DESCRIPTOR {
        match rom.Find(q)
        case Unsupported =>
          Fail();
        case Found(r) =>
          if setupLen > r.size {
            setupLen := r.size;
          }
          descr := r.base;
          CopyChunk();
          Answer(txLen);
      } else if q.request == SET_ADDRESS {
        setupLen := q.valueL as nat;
        Answer(0);
      } else if q.request == GET_CONFIGURATION {
        ram[0] := config;
        Answer(if setupLen >= 1 then 1 else 0);
      } else if q.request == SET_CONFIGURATION {
        config := q.valueL;
        Answer(0);
      } else if q.request == GET_INTERFACE || q.request == SET_INTERFACE {
        Answer(0);
      } else if q.request == CLEAR_FEATURE {
        HandleFeature(q, ClearFeatureSupported(rom, q), Nak, Ack);
      } else if q.request == SET_FEATURE {
        HandleFeature(q, SetFeatureSupported(rom, q), Stall, Stall);
      } else if q.request == GET_STATUS {
        ram[0] := 0;
        ram[1] := 0;
        Answer(if setupLen >= 2 then 2 else setupLen);
      } else {
        Fail();
      }
    }

    method HandleSetup(q: Setup, rxLen: nat)
      requires Valid()
      modifies this, ram
      ensures Valid() && State() == OnSetup(rom, old(State()), q, rxLen)
    {
      if rxLen != SETUP_SIZE {
        Fail();
        return;
      }
      setupLen := q.Length();
      request := q.request;
      if q.Standard() {
        HandleStandard(q);
      } else {
        Fail();
      }
    }

    method HandleIn()
      requires Valid()
      modifies this, ram
      ensures Valid() && State() == OnIn(rom, old(State()))
    {
      if request == GET_DESCRIPTOR {
        CopyChunk();
        txToggle := !txToggle;
      } else if request == SET_ADDRESS {
        address := (address & ADDRESS_GP_BIT) | ((setupLen % 256) as bv8);
        txToggle, rxToggle, tx, rx := false, false, Nak, Ack;
      } else {
        txLen := 0;
        txToggle, rxToggle, tx, rx := false, false, Nak, Ack;
      }
    }

    method HandleOut()
      requires Valid()
      modifies this
      ensures Valid() && State() == OnOut(old(State()))
    {
      txLen := 0;
      tx := OrNak(tx);
    }

    method HandleBusReset()
      requires Valid()
      modifies this
      ensures Valid() && State() == OnBusReset(old(State()))
    {
      txToggle, rxToggle, tx, rx := false, false, Nak, Ack;
      address, halves := 0, OPEN_HALVES;
    }
  }
}
