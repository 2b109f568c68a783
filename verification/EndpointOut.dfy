/**
 Endpoint 2 OUT of include/usb_hid.c and the reading loop of include/device_control.c as
 interleaved steps, one register update of the main code at a time.
 */
module EndpointOut {
  import opened Wrappers

  // Where the main code is inside CONTROL_handleUSB. A Gate is the test at the end of
  // HID_read that re-enables the endpoint; the Ack places are the three writes of HID_ack.
  datatype Place =
    | Idle
    | Draining
    | DrainGate
    | Reading(i: nat)
    | ReadGate(i: nat)
    | AckCount
    | AckPoint
    | AckEnable

  datatype Fate = Waiting | Handled | Drained | Dropped | Empty

  // A packet the endpoint accepted and what became of it.
  datatype Entry = Entry(data: Bytes, fate: Fate)

  datatype Channel = Channel(buffer: Bytes, count: nat, point: nat, rx: Response, place: Place,
                             whole: bool, packet: Bytes, current: nat,
                             log: seq<Entry>, handled: seq<Bytes>)

  datatype Step =
    | Main
    | Out(data: Bytes, inSync: bool)  // a packet arrives; inSync is the data-toggle check
    | Reenable                        // bus reset or CLEAR_FEATURE(ENDPOINT_HALT)
    | Halt                            // SET_FEATURE(ENDPOINT_HALT)

  predicate Possible(c: Channel, s: Step) {
    s.Out? ==> c.rx == Ack && |s.data| <= |c.buffer|
  }

  ghost predicate Wf(c: Channel) {
    && PACKET_SIZE <= |c.buffer| && c.count + c.point <= |c.buffer|
    && (c.place.Reading? || c.place.ReadGate? ==> c.place.i < PACKET_SIZE && c.whole)
    && (c.place.Draining? || c.place.DrainGate? ==> !c.whole)
    && (c.place != Idle ==> c.current < |c.log|)
  }

  // A packet that lands after the pending one was read will be thrown away by the drain
  // loop or by HID_ack.
  predicate WillBeDropped(place: Place) {
    place != Idle
  }

  function AfterByte(i: nat): Place {
    if i + 1 == PACKET_SIZE then AckCount else Reading(i + 1)
  }

  function MainStep(c: Channel): (d: Channel)
    requires Wf(c)
  {
    match c.place
    case Idle =>
      if c.count == 0 || c.log == [] then c
      else if c.count == PACKET_SIZE then
        c.(place := Reading(0), whole := true, packet := [], current := |c.log| - 1)
      else
        c.(place := Draining, whole := false, current := |c.log| - 1)
    case Draining =>
      if c.count == 0 then c.(place := AckCount)
      else c.(place := DrainGate, point := c.point + 1, count := c.count - 1)
    case DrainGate =>
      c.(place := Draining, rx := if c.count == 0 then Ack else c.rx)
    case Reading(i) =>
      if c.count == 0 then c.(packet := c.packet + [0], place := AfterByte(i))
      else c.(packet := c.packet + [c.buffer[c.point]], place := ReadGate(i),
              point := c.point + 1, count := c.count - 1)
    case ReadGate(i) =>
      c.(place := AfterByte(i), rx := if c.count == 0 then Ack else c.rx)
    case AckCount => c.(count := 0, place := AckPoint)
    case AckPoint => c.(point := 0, place := AckEnable)
    case AckEnable =>
      c.(rx := Ack, place := Idle,
         log := c.log[c.current := c.log[c.current].(fate := if c.whole then Handled else Drained)],
         handled := if c.whole then c.handled + [c.packet] else c.handled)
  }

  function Next(c: Channel, s: Step): (d: Channel)
    requires Wf(c) && Possible(c, s)
  {
    match s
    case Main => MainStep(c)
    case Out(data, inSync) =>
      // The controller fills the buffer before the handler looks at the toggle.
      var filled := c.(buffer := data + c.buffer[|data|..]);
      if !inSync then filled
      else
        var fate := if data == [] then Empty else if WillBeDropped(c.place) then Dropped else Waiting;
        filled.(count := |data|, point := 0,
                rx := if data == [] then c.rx else Nak,
                log := c.log + [Entry(data, fate)])
    case Reenable => c.(rx := Ack)
    case Halt => c.(rx := Stall)
  }

  function Fresh(buffer: Bytes): Channel {
    Channel(buffer, 0, 0, Ack, Idle, false, [], 0, [], [])
  }

  // ---------------------------------------------------------------- invariant

  // Unread bytes keep the endpoint closed.
  predicate UnreadMeansNak(c: Channel) {
    c.count != 0 ==> c.rx != Ack
  }

  // The flow control the code relies on: that, and no packet slipping in between the
  // writes of HID_ack.
  ghost predicate Flow(c: Channel) {
    && UnreadMeansNak(c)
    && (c.place.AckPoint? || c.place.AckEnable? ==> c.count == 0)
  }

  function HandledData(log: seq<Entry>): seq<Bytes> {
    if log == [] then []
    else
      HandledData(log[..|log| - 1])
      + (if log[|log| - 1].fate == Handled then [log[|log| - 1].data] else [])
  }

  // Index of the only entry that may still be waiting, or |log| for none.
  function Open(c: Channel): nat {
    if c.place != Idle then c.current
    else if c.count != 0 && c.log != [] then |c.log| - 1
    else |c.log|
  }

  ghost predicate LogInv(c: Channel) {
    && (forall i :: 0 <= i < |c.log| ==> (c.log[i].fate == Waiting <==> i == Open(c)))
    && (forall i :: 0 <= i < |c.log| && c.log[i].fate == Handled ==> |c.log[i].data| == PACKET_SIZE)
    // Whatever arrived after the packet being worked on is not handled.
    && (c.place != Idle ==> forall i :: c.current < i < |c.log| ==> c.log[i].fate == Dropped || c.log[i].fate == Empty)
    && c.handled == HandledData(c.log)
  }

  ghost predicate PlaceInv(c: Channel)
    requires Wf(c)
  {
    match c.place
    case Idle =>
      (c.count != 0 ==>
         c.log != [] && c.point == 0 && c.log[|c.log| - 1].data == c.buffer[..c.count])
    case Draining => |c.log[c.current].data| != PACKET_SIZE
    case DrainGate => |c.log[c.current].data| != PACKET_SIZE
    case Reading(i) =>
      c.count == PACKET_SIZE - i && c.point == i
        && |c.log[c.current].data| == PACKET_SIZE
        && c.log[c.current].data == c.buffer[..PACKET_SIZE]
        && c.packet == c.log[c.current].data[..i]
    case ReadGate(i) =>
      |c.log[c.current].data| == PACKET_SIZE
        && c.packet == c.log[c.current].data[..i + 1]
        && (i + 1 < PACKET_SIZE ==>
              c.count == PACKET_SIZE - i - 1 && c.point == i + 1
              && c.log[c.current].data == c.buffer[..PACKET_SIZE])
    case AckCount => AssembledOrNot(c)
    case AckPoint => AssembledOrNot(c)
    case AckEnable => AssembledOrNot(c)
  }

  ghost predicate AssembledOrNot(c: Channel)
    requires c.current < |c.log|
  {
    if c.whole then |c.packet| == PACKET_SIZE && c.packet == c.log[c.current].data
    else |c.log[c.current].data| != PACKET_SIZE
  }

  ghost predicate Inv(c: Channel) {
    Wf(c) && Flow(c) && LogInv(c) && PlaceInv(c)
  }

  // The two ways flow control can be broken: a packet landing between the writes of
  // HID_ack, and the endpoint being re-enabled while bytes are unread.
  predicate Disturbs(c: Channel, s: Step) {
    match s
    case Main => false
    case Out(data, inSync) => inSync && data != [] && (c.place.AckPoint? || c.place.AckEnable?)
    case Reenable => c.count != 0
    case Halt => false
  }

  // ---------------------------------------------------------------- proofs

  lemma HandledAppend(log: seq<Entry>, e: Entry)
    ensures HandledData(log + [e]) == HandledData(log) + (if e.fate == Handled then [e.data] else [])
  {
    assert (log + [e])[..|log|] == log;
  }

  lemma {:induction false} HandledNone(log: seq<Entry>, k: nat)
    requires k <= |log| && forall i :: k <= i < |log| ==> log[i].fate != Handled
    ensures HandledData(log) == HandledData(log[..k])
    decreases |log|
  {
    if k < |log| {
      var n := |log| - 1;
      HandledNone(log[..n], k);
      assert log[..n][..k] == log[..k];
    } else {
      assert log[..k] == log;
    }
  }

  // Deciding the open entry appends it to the handled data or leaves that as it was.
  lemma DecideEntry(log: seq<Entry>, k: nat, fate: Fate)
    requires k < |log| && log[k].fate == Waiting && (fate == Handled || fate == Drained)
    requires forall i :: k < i < |log| ==> log[i].fate == Dropped || log[i].fate == Empty
    ensures HandledData(log[k := log[k].(fate := fate)]) ==
      HandledData(log) + (if fate == Handled then [log[k].data] else [])
  {
    var after := log[k := log[k].(fate := fate)];
    HandledNone(log, k);
    HandledNone(after, k + 1);
    assert after[..k + 1] == log[..k] + [after[k]];
    HandledAppend(log[..k], after[k]);
  }

  lemma IdleKeeps(c: Channel)
    requires Inv(c) && c.place == Idle
    ensures Inv(MainStep(c))
  {
  }

  lemma DrainKeeps(c: Channel)
    requires Inv(c) && (c.place == Draining || c.place == DrainGate)
    ensures Inv(MainStep(c))
  {
  }

  lemma ReadKeeps(c: Channel)
    requires Inv(c) && (c.place.Reading? || c.place.ReadGate?)
    ensures Inv(MainStep(c))
  {
    if c.place.Reading? {
      var i := c.place.i;
      var data := c.log[c.current].data;
      assert data[..i + 1] == data[..i] + [data[i]];
      assert data[i] == c.buffer[..PACKET_SIZE][i] == c.buffer[i];
    }
  }

  lemma AckKeeps(c: Channel)
    requires Inv(c) && (c.place == AckCount || c.place == AckPoint)
    ensures Inv(MainStep(c))
  {
  }

  lemma EnableKeeps(c: Channel)
    requires Inv(c) && c.place == AckEnable
    ensures Inv(MainStep(c))
  {
    DecideEntry(c.log, c.current, if c.whole then Handled else Drained);
  }

  lemma MainKeeps(c: Channel)
    requires Inv(c)
    ensures Inv(MainStep(c))
  {
    match c.place
    case Idle => IdleKeeps(c);
    case Draining => DrainKeeps(c);
    case DrainGate => DrainKeeps(c);
    case Reading(i) => ReadKeeps(c);
    case ReadGate(i) => ReadKeeps(c);
    case AckCount => AckKeeps(c);
    case AckPoint => AckKeeps(c);
    case AckEnable => EnableKeeps(c);
  }

  lemma OutKeeps(c: Channel, data: Bytes, inSync: bool)
    requires Inv(c) && Possible(c, Out(data, inSync)) && !Disturbs(c, Out(data, inSync))
    ensures Inv(Next(c, Out(data, inSync)))
  {
    if inSync {
      forall fate ensures HandledData(c.log + [Entry(data, fate)]) ==
                          HandledData(c.log) + (if fate == Handled then [data] else []) {
        HandledAppend(c.log, Entry(data, fate));
      }
      if data == [] {
        EmptyOutKeeps(c);
      } else {
        DataOutKeeps(c, data);
      }
    }
  }

  lemma EmptyOutKeeps(c: Channel)
    requires Inv(c) && Possible(c, Out([], true))
    requires HandledData(c.log + [Entry([], Empty)]) == HandledData(c.log)
    ensures Inv(Next(c, Out([], true)))
  {
    assert [] + c.buffer[0..] == c.buffer;
  }

  lemma DataOutKeeps(c: Channel, data: Bytes)
    requires Inv(c) && Possible(c, Out(data, true)) && !Disturbs(c, Out(data, true)) && data != []
    requires forall fate :: fate != Handled ==> HandledData(c.log + [Entry(data, fate)]) == HandledData(c.log)
    ensures Inv(Next(c, Out(data, true)))
  {
    assert Next(c, Out(data, true)).buffer[..|data|] == data;
  }

  lemma StepKeepsInv(c: Channel, s: Step)
    requires Inv(c) && Possible(c, s) && !Disturbs(c, s)
    ensures Inv(Next(c, s))
  {
    match s
    case Main => MainKeeps(c);
    case Out(data, inSync) => OutKeeps(c, data, inSync);
    case Reenable =>
    case Halt =>
  }
}
