/**
 CONTROL_handleUSB of include/device_control.c in one piece: the reading of endpoint 2 and
 the handling of the frame read.
 */
module CommandPort {
  import opened Wrappers
  import opened Keyboard
  import opened Actions
  import opened Control
  import OutEndpoint
  import Out = EndpointOut
  import OutLaws = EndpointOutLaws

  // The panel after a call that finds these registers.
  function AfterCall(strikes: Strikes, c: Panel, r: OutEndpoint.Registers): (d: Panel)
    requires c.Wf() && OutEndpoint.Bounded(r)
    ensures d.Wf()
  {
    var frame := OutEndpoint.FrameOf(r);
    if frame.Some? then HandleUSB(strikes, c, frame.value) else c
  }

  method HandlePort(panel: ControlPanel, endpoint: OutEndpoint.Endpoint2)
    requires panel.Valid() && endpoint.Valid()
    requires endpoint !in panel.Footprint() && endpoint.buffer !in panel.Footprint()
    modifies panel.Footprint(), endpoint
    ensures panel.Valid() && endpoint.Valid()
    ensures endpoint.View() == OutEndpoint.AfterReceive(old(endpoint.View()))
    ensures panel.State() == AfterCall(panel.actions.reports.strikes, old(panel.State()), old(endpoint.View()))
  {
    var frame := endpoint.Receive();
    if frame.Some? {
      var packet := new bv8[|frame.value|](i requires 0 <= i < |frame.value| => frame.value[i]);
      assert packet[..] == frame.value;
      panel.HandleOut(packet);
    }
  }

  // Only a 32-byte packet with a good header and checksum changes anything but the
  // endpoint's registers.
  lemma OtherPacketsChangeNothing(strikes: Strikes, c: Panel, r: OutEndpoint.Registers)
    requires c.Wf() && OutEndpoint.Bounded(r)
    requires r.count != PACKET_SIZE || !Accepts(r.buffer[r.point..r.point + r.count])
    ensures AfterCall(strikes, c, r) == c
  {
  }

  // ---------------------------------------------------------------- with the endpoint's own model

  // The panel after frames handled one after another.
  function HandleAll(strikes: Strikes, c: Panel, frames: seq<Frame>): (d: Panel)
    requires c.Wf()
    ensures d.Wf()
    decreases frames
  {
    if frames == [] then c else HandleAll(strikes, HandleUSB(strikes, c, frames[0]), frames[1..])
  }

  // A call that nothing interrupts does to the panel what the frames do that the interleaved
  // model of endpoint 2 hands on in it: the waiting packet if it is a frame, and none if not.
  lemma CallHandlesWhatIsHandedOn(strikes: Strikes, c: Panel, ch: Out.Channel, n: nat, d: Out.Channel)
    requires c.Wf() && Out.Wf(ch) && ch.place == Out.Idle && ch.count != 0 && ch.log != []
    requires n == OutEndpoint.CallLength(ch.count) && OutLaws.MainRunWf(ch, n) && d == OutLaws.MainRun(ch, n)
    ensures OutEndpoint.Bounded(OutEndpoint.RegistersOf(ch)) && ch.handled <= d.handled
    ensures AfterCall(strikes, c, OutEndpoint.RegistersOf(ch)) == HandleAll(strikes, c, d.handled[|ch.handled|..])
    ensures |d.handled| == |ch.handled| + (if ch.count == PACKET_SIZE then 1 else 0)
  {
    OutEndpoint.UninterruptedCallIsReceive(ch);
    var frame := OutEndpoint.FrameOf(OutEndpoint.RegistersOf(ch));
    HandedAfter(ch.handled, frame);
    if frame.Some? {
      OneFrame(strikes, c, frame.value);
    }
  }

  lemma HandedAfter(before: seq<Bytes>, frame: Option<Bytes>)
    ensures (before + OutEndpoint.Handed(frame))[|before|..] == OutEndpoint.Handed(frame)
  {
  }

  lemma OneFrame(strikes: Strikes, c: Panel, frame: Frame)
    requires c.Wf()
    ensures HandleAll(strikes, c, [frame]) == HandleUSB(strikes, c, frame)
  {
    assert [frame][1..] == [];
  }
}
