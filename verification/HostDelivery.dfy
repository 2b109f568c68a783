/**
 The keyboard model and the control model put together with the endpoints that carry their
 reports: what the host itself has received, not only what the device submitted.
 */
module HostDelivery {
  import opened Wrappers
  import opened Keyboard
  import opened KeyboardLaws
  import opened Actions
  import opened Control
  import Held = HeldKeys
  import In = EndpointIn
  import InLaws = EndpointInLaws
  import Ctl = ControlLaws

  // From the state `start`, say the one a bus reset left, the main code handed the endpoint
  // exactly the given reports, counting one whose send was under way at the start, and has
  // returned from the last send; no step cost a report.
  ghost predicate Carried(reports: seq<Bytes>, start: In.Pipe, steps: seq<In.Step>)
    requires In.Inv(start)
  {
    && InLaws.PossibleRun(start, steps)
    && InLaws.Spared(start, steps)
    && InLaws.Open(start) + InLaws.Submits(steps) == reports
    && InLaws.Run(start, steps).place == In.Idle
  }

  // A stretch starts with nothing in flight and no torn report under the copy. Every bus
  // reset leaves such a state unless it tore one (EndpointInLaws.ResetStartsAStretch).
  ghost predicate Starts(start: In.Pipe) {
    In.Inv(start) && start.tx != Ack && InLaws.OpenWhole(start)
  }

  // What the host received since then.
  ghost function Received(start: In.Pipe, steps: seq<In.Step>): seq<Bytes>
    requires In.Inv(start) && InLaws.PossibleRun(start, steps)
  {
    var r := InLaws.Run(start, steps).received;
    if |start.received| <= |r| then r[|start.received|..] else []
  }

  // All of the reports, but for the last while that is in flight.
  lemma CarriedArrives(reports: seq<Bytes>, start: In.Pipe, steps: seq<In.Step>)
    requires Starts(start) && Carried(reports, start, steps)
    ensures var q, got := InLaws.Run(start, steps), Received(start, steps);
            got == (if q.tx == Ack && reports != [] then reports[..|reports| - 1] else reports)
            && (!q.busy ==> got == reports)
  {
    var q := InLaws.Run(start, steps);
    InLaws.SettledReportsArrive(start, steps);
    InLaws.HostGetsWhatWasSubmitted(start, steps);
    OnlySubmitted(start.received, InLaws.Open(start), InLaws.Submits(steps));
    Drop(start.received, q.received, InLaws.Flight(q), reports);
  }

  lemma OnlySubmitted(a: seq<Bytes>, b: seq<Bytes>, c: seq<Bytes>)
    ensures a + [] + b + c == a + (b + c)
  {
  }

  lemma Drop(before: seq<Bytes>, now: seq<Bytes>, flight: seq<Bytes>, reports: seq<Bytes>)
    requires before <= now && now + flight == before + reports
    ensures now[|before|..] + flight == reports
  {
    var got := now[|before|..];
    assert now == before + got;
    assert (before + (got + flight))[|before|..] == got + flight && (before + reports)[|before|..] == reports;
    assert now + flight == before + (got + flight);
  }

  // Once endpoint 1 has drained, the host's keyboard and consumer reports, worked out from
  // the packets it really received since the last reset, agree with the device.
  lemma DrainedHostAgrees(strikes: Strikes, events: seq<Held.Event>, p: Port, start: In.Pipe, steps: seq<In.Step>)
    requires (forall e :: e in events ==> Held.Legal(e)) && p == Held.Run(strikes, Held.START, events).device.port
    requires Starts(start) && Carried(p.sent, start, steps) && !InLaws.Run(start, steps).busy
    ensures Received(start, steps) == p.sent && HostWith(Received(start, steps), p)
  {
    CarriedArrives(p.sent, start, steps);
    Held.HostFollowsDevice(strikes, events);
  }

  // And when no control is down, what the host holds is an empty keyboard report.
  lemma DrainedHostHoldsNoKey(strikes: Strikes, events: seq<Held.Event>, w: Held.World,
                              start: In.Pipe, steps: seq<In.Step>)
    requires (forall e :: e in events ==> Held.Legal(e)) && w == Held.Run(strikes, Held.START, events)
    requires Starts(start) && Carried(w.device.port.sent, start, steps) && !InLaws.Run(start, steps).busy
    requires w.down == {}
    ensures HostReport(Received(start, steps), KEYBOARD_ID) == Blank(KEYBOARD_ID)
  {
    CarriedArrives(w.device.port.sent, start, steps);
    Held.NothingDownNothingHeld(strikes, events);
  }

  // ---------------------------------------------------------------- event frames

  // The same for the Raw HID frames of endpoint 2: what the host works out from the frames
  // it really received agrees with each of them, and once the endpoint has drained its mask
  // and numbering are the device's.
  lemma DeliveredFramesReplay(strikes: Strikes, events: seq<Ctl.Event>, start: In.Pipe, steps: seq<In.Step>)
    requires Starts(start)
    requires Carried(Ctl.Run(strikes, Ctl.PowerOnSession(), events).panel.frames, start, steps)
    ensures var c, host := Ctl.Run(strikes, Ctl.PowerOnSession(), events).panel, Ctl.Replay(Received(start, steps));
            host.agreed
            && (!InLaws.Run(start, steps).busy ==> host == Ctl.Host(c.mask, c.sequence, true))
  {
    var c := Ctl.Run(strikes, Ctl.PowerOnSession(), events).panel;
    CarriedArrives(c.frames, start, steps);
    Ctl.HostReplaysEveryRun(strikes, events, 0);
    if c.frames != [] {
      Ctl.AgreedBefore(c.frames);
    }
  }

  // The frames handed over between two moments.
  function Since(before: Panel, now: Panel): seq<Frame> {
    if |before.frames| <= |now.frames| then now.frames[|before.frames|..] else []
  }

  // After a reset or lost frames the host may have any state. From wherever the device is
  // when a stretch starts, once the answer to a status request has been delivered, each
  // delivered frame finds or leaves the host with the mask it carries; and once the endpoint
  // has drained that is the device's.
  lemma DeliveredStatusResynchronises(strikes: Strikes, s: Ctl.Session, before: seq<Ctl.Event>, asked: Ctl.Session,
                                      packet: seq<bv8>, after: seq<Ctl.Event>, c: Panel,
                                      h: Ctl.Host, start: In.Pipe, steps: seq<In.Step>)
    requires s.panel.Wf() && asked == Ctl.Run(strikes, s, before)
    requires Accepts(packet) && (packet[3] == CMD_STATUS || packet[3] == CMD_RELEASE_ALL)
    requires c == Ctl.Run(strikes, Ctl.Step(strikes, asked, Ctl.Out(packet)), after).panel
    requires Starts(start) && Carried(Since(s.panel, c), start, steps)
    ensures var got, answer := Received(start, steps), |Since(s.panel, asked.panel)|;
            (forall n :: answer < n <= |got| ==> Ctl.TellsMask(h, got, 0, n))
            && (!InLaws.Run(start, steps).busy ==> Ctl.ReplayFrom(h, got).mask == c.mask)
  {
    var got := Received(start, steps);
    var a, b := |s.panel.frames|, |asked.panel.frames|;
    CarriedArrives(Since(s.panel, c), start, steps);
    Ctl.StatusRestores(strikes, s, before, asked, packet, after, h);
    forall n | b - a < n <= |got| ensures Ctl.TellsMask(h, got, 0, n) {
      Ctl.EachFrameAfterStatus(strikes, asked, packet, after, Ctl.ReplayFrom(h, c.frames[a..b]), c.frames, a + n - b);
      Ctl.LaterTellsMask(h, c.frames, a, b, n);
      PartTellsMask(h, c.frames, a, got, n);
    }
  }

  lemma PartTellsMask(h: Ctl.Host, frames: seq<Frame>, a: nat, got: seq<Frame>, n: nat)
    requires a <= |frames| && got <= frames[a..] && n <= |got| && Ctl.TellsMask(h, frames, a, n)
    ensures Ctl.TellsMask(h, got, 0, n)
  {
    assert got[0..n] == frames[a..a + n];
  }
}
