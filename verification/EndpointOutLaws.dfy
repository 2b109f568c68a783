/**
 Delivery of command frames over whole runs of endpoint 2, and the window inside HID_ack
 through which it can fail.
 */
module EndpointOutLaws {
  import opened Wrappers
  import opened EndpointOut

  // A run whose every step is possible and none disturbs flow control.
  ghost predicate CalmRun(c: Channel, steps: seq<Step>)
    requires Inv(c)
    decreases steps
  {
    steps != [] ==>
      && Possible(c, steps[0]) && !Disturbs(c, steps[0])
      && (StepKeepsInv(c, steps[0]);
          CalmRun(Next(c, steps[0]), steps[1..]))
  }

  function Run(c: Channel, steps: seq<Step>): (d: Channel)
    requires Inv(c) && CalmRun(c, steps)
    ensures Inv(d)
    decreases steps
  {
    if steps == [] then c
    else
      StepKeepsInv(c, steps[0]);
      Run(Next(c, steps[0]), steps[1..])
  }

  // ---------------------------------------------------------------- intact, at most once

  // The data accepted, in order of arrival.
  function Accepted(log: seq<Entry>): (r: seq<Bytes>)
    ensures |r| == |log|
  {
    if log == [] then [] else Accepted(log[..|log| - 1]) + [log[|log| - 1].data]
  }

  // The positions of the handled entries.
  function HandledAt(log: seq<Entry>): seq<nat> {
    if log == [] then []
    else HandledAt(log[..|log| - 1]) + (if log[|log| - 1].fate == Handled then [|log| - 1] else [])
  }

  lemma {:induction false} AcceptedAt(log: seq<Entry>, i: nat)
    requires i < |log|
    ensures Accepted(log)[i] == log[i].data
    decreases |log|
  {
    if i + 1 < |log| {
      AcceptedAt(log[..|log| - 1], i);
    }
  }

  lemma {:induction false} HandledAtPositions(log: seq<Entry>)
    ensures |HandledAt(log)| == |HandledData(log)|
    ensures forall n :: 0 <= n < |HandledAt(log)| ==>
      HandledAt(log)[n] < |log| && log[HandledAt(log)[n]].fate == Handled
      && HandledData(log)[n] == log[HandledAt(log)[n]].data
    ensures forall m, n :: 0 <= m < n < |HandledAt(log)| ==> HandledAt(log)[m] < HandledAt(log)[n]
    decreases |log|
  {
    if log != [] {
      HandledAtPositions(log[..|log| - 1]);
    }
  }

  // The frames handled are 32-byte packets the endpoint accepted, unchanged, in order of
  // arrival, each at most once.
  lemma FramesAreIntactInOrderAtMostOnce(buffer: Bytes, steps: seq<Step>)
    requires PACKET_SIZE <= |buffer| && CalmRun(Fresh(buffer), steps)
    ensures var d := Run(Fresh(buffer), steps);
            var at := HandledAt(d.log);
            |at| == |d.handled|
            && (forall n :: 0 <= n < |at| ==>
                  at[n] < |d.log| && d.handled[n] == Accepted(d.log)[at[n]] && |d.handled[n]| == PACKET_SIZE)
            && (forall m, n :: 0 <= m < n < |at| ==> at[m] < at[n])
  {
    var d := Run(Fresh(buffer), steps);
    HandledAtPositions(d.log);
    forall n | 0 <= n < |HandledAt(d.log)|
      ensures d.handled[n] == Accepted(d.log)[HandledAt(d.log)[n]]
    {
      AcceptedAt(d.log, HandledAt(d.log)[n]);
    }
  }

  // ---------------------------------------------------------------- exactly once

  // A frame-sized packet lands while the main code is inside a call. With flow control in
  // order that can only be after the last HID_read.
  predicate LandsInCall(c: Channel, s: Step) {
    s.Out? && s.inSync && |s.data| == PACKET_SIZE && c.place != Idle
  }

  ghost predicate FrameLandsInCall(c: Channel, steps: seq<Step>)
    requires Inv(c) && CalmRun(c, steps)
    decreases steps
  {
    steps != [] &&
    (StepKeepsInv(c, steps[0]);
     LandsInCall(c, steps[0]) || FrameLandsInCall(Next(c, steps[0]), steps[1..]))
  }

  predicate DroppedFrame(e: Entry) {
    |e.data| == PACKET_SIZE && e.fate == Dropped
  }

  function CountDropped(log: seq<Entry>): nat {
    if log == [] then 0
    else CountDropped(log[..|log| - 1]) + (if DroppedFrame(log[|log| - 1]) then 1 else 0)
  }

  // A frame-sized entry is never drained and never counted as empty.
  ghost predicate FramesKept(c: Channel) {
    forall i :: 0 <= i < |c.log| && |c.log[i].data| == PACKET_SIZE ==>
      c.log[i].fate == Handled || c.log[i].fate == Waiting || c.log[i].fate == Dropped
  }

  // The 32-byte packets among the entries.
  function FrameSized(log: seq<Entry>): seq<Bytes> {
    if log == [] then []
    else
      FrameSized(log[..|log| - 1])
      + (if |log[|log| - 1].data| == PACKET_SIZE then [log[|log| - 1].data] else [])
  }

  lemma StepKeepsFrames(c: Channel, s: Step)
    requires Inv(c) && FramesKept(c) && Possible(c, s) && !Disturbs(c, s)
    ensures FramesKept(Next(c, s))
  {
  }

  lemma {:induction false} DecidedKeepsDropped(log: seq<Entry>, k: nat, fate: Fate)
    requires k < |log| && log[k].fate != Dropped && fate != Dropped
    ensures CountDropped(log[k := log[k].(fate := fate)]) == CountDropped(log)
    decreases |log|
  {
    var n := |log| - 1;
    var after := log[k := log[k].(fate := fate)];
    if k < n {
      DecidedKeepsDropped(log[..n], k, fate);
      assert after[..n] == log[..n][k := log[k].(fate := fate)];
    } else {
      assert after[..n] == log[..n];
    }
  }

  lemma StepCountsDropped(c: Channel, s: Step)
    requires Inv(c) && Possible(c, s) && !Disturbs(c, s)
    ensures CountDropped(Next(c, s).log) == CountDropped(c.log) + (if LandsInCall(c, s) then 1 else 0)
  {
    match s
    case Main =>
      if c.place == AckEnable {
        DecidedKeepsDropped(c.log, c.current, if c.whole then Handled else Drained);
      }
    case Out(data, inSync) =>
      if inSync {
        assert Next(c, s).log[..|c.log|] == c.log;
      }
    case Reenable =>
    case Halt =>
  }

  lemma {:induction false} RunCountsDropped(c: Channel, steps: seq<Step>)
    requires Inv(c) && FramesKept(c) && CalmRun(c, steps)
    ensures var d := Run(c, steps);
            FramesKept(d) && CountDropped(d.log) >= CountDropped(c.log)
            && (CountDropped(d.log) > CountDropped(c.log) <==> FrameLandsInCall(c, steps))
    decreases steps
  {
    if steps != [] {
      StepKeepsInv(c, steps[0]);
      StepKeepsFrames(c, steps[0]);
      StepCountsDropped(c, steps[0]);
      RunCountsDropped(Next(c, steps[0]), steps[1..]);
    }
  }

  // With nothing pending, the frames handled are the 32-byte packets less the dropped ones.
  lemma {:induction false} HandledAndDropped(log: seq<Entry>)
    requires forall i :: 0 <= i < |log| ==>
      log[i].fate != Waiting
      && (log[i].fate == Handled ==> |log[i].data| == PACKET_SIZE)
      && (|log[i].data| == PACKET_SIZE ==> log[i].fate == Handled || log[i].fate == Dropped)
    ensures |HandledData(log)| + CountDropped(log) == |FrameSized(log)|
    ensures CountDropped(log) == 0 ==> HandledData(log) == FrameSized(log)
    decreases |log|
  {
    if log != [] {
      HandledAndDropped(log[..|log| - 1]);
    }
  }

  // Whenever nothing is pending, exactly the 32-byte packets were handled if and only if no
  // such packet landed inside a call. Packets of other sizes may land anywhere.
  lemma FramesAreHandledExactlyOnce(buffer: Bytes, steps: seq<Step>)
    requires PACKET_SIZE <= |buffer| && CalmRun(Fresh(buffer), steps)
    requires var d := Run(Fresh(buffer), steps); d.place == Idle && d.count == 0
    ensures var d := Run(Fresh(buffer), steps);
            d.handled == FrameSized(d.log) <==> !FrameLandsInCall(Fresh(buffer), steps)
  {
    var d := Run(Fresh(buffer), steps);
    RunCountsDropped(Fresh(buffer), steps);
    HandledAndDropped(d.log);
  }

  // ---------------------------------------------------------------- the window in HID_ack

  // One step: from a good state, unread bytes go on meaning NAK exactly unless the
  // endpoint is re-enabled with bytes unread. A packet inside HID_ack does no harm yet.
  lemma StepKeepsUnreadMeansNak(c: Channel, s: Step)
    requires Inv(c) && Possible(c, s)
    ensures UnreadMeansNak(Next(c, s)) <==> !(s.Reenable? && c.count != 0)
  {
  }

  // Steps from inside HID_ack to the return of the call, without a re-enabling.
  ghost predicate FinishesAck(c: Channel, steps: seq<Step>)
    decreases steps
  {
    && Wf(c)
    && if steps == [] then c.place == Idle
       else
         && (c.place == AckPoint || c.place == AckEnable)
         && Possible(c, steps[0]) && !steps[0].Reenable?
         && FinishesAck(Next(c, steps[0]), steps[1..])
  }

  function AfterAck(c: Channel, steps: seq<Step>): Channel
    requires FinishesAck(c, steps)
    decreases steps
  {
    if steps == [] then c else AfterAck(Next(c, steps[0]), steps[1..])
  }

  predicate Lands(s: Step) {
    s.Out? && s.inSync && s.data != []
  }

  // The window in HID_ack: whatever interleaves with its last two writes, the endpoint is
  // open at the end, and it has unread bytes exactly when it had some before or a
  // non-empty packet landed in between.
  lemma {:induction false} AckWindowExactly(c: Channel, steps: seq<Step>)
    requires FinishesAck(c, steps) && c.place != Idle && UnreadMeansNak(c)
    ensures var d := AfterAck(c, steps);
            d.rx == Ack && (d.count != 0 <==> c.count != 0 || exists i :: 0 <= i < |steps| && Lands(steps[i]))
    decreases steps
  {
    var s, rest := steps[0], steps[1..];
    var next := Next(c, s);
    LandsFirstOrLater(steps);
    if next.place == Idle {
      assert rest == [];
    } else {
      AckWindowExactly(next, rest);
    }
  }

  lemma LandsFirstOrLater(steps: seq<Step>)
    requires steps != []
    ensures (exists i :: 0 <= i < |steps| && Lands(steps[i])) <==>
            Lands(steps[0]) || exists i :: 0 <= i < |steps[1..]| && Lands(steps[1..][i])
  {
    if i :| 0 <= i < |steps[1..]| && Lands(steps[1..][i]) {
      assert Lands(steps[i + 1]);
    }
    if i :| 0 < i < |steps| && Lands(steps[i]) {
      assert Lands(steps[1..][i - 1]);
    }
  }

  // In a good state HID_ack has already cleared the count, so a call returns with unread
  // bytes and the endpoint open exactly when a packet landed in the window.
  lemma CallReturnsOpenExactly(c: Channel, steps: seq<Step>)
    requires Inv(c) && FinishesAck(c, steps) && c.place != Idle
    ensures UnreadMeansNak(AfterAck(c, steps)) <==> !exists i :: 0 <= i < |steps| && Lands(steps[i])
  {
    AckWindowExactly(c, steps);
  }

  // A packet landing between HID_ack's first and last write leaves the endpoint open with
  // the whole packet unread.
  lemma PacketInsideAckOpensTheEndpoint(c: Channel, data: Bytes)
    requires Inv(c) && (c.place == AckPoint || c.place == AckEnable)
    requires Possible(c, Out(data, true)) && data != []
    ensures var landed := Next(c, Out(data, true));
            var first := MainStep(landed);
            var d := if c.place == AckPoint then MainStep(first) else first;
            Wf(landed) && Wf(first) && Wf(d) && d.place == Idle && d.rx == Ack && d.point == 0
            && d.count == |data| && d.buffer[..|data|] == data && !Flow(d)
            && d.log != [] && d.log[|d.log| - 1].data == data
  {
    var landed := Next(c, Out(data, true));
    assert landed.buffer[..|data|] == data;
  }

  // ---------------------------------------------------------------- never deaf

  // Closed and not halted means that bytes are unread, or that the main code is about to
  // open the endpoint.
  predicate ClosedMeansUnread(c: Channel) {
    || c.rx == Ack || c.rx == Stall || c.count != 0
    || c.place.DrainGate? || c.place.ReadGate? || c.place.AckPoint? || c.place.AckEnable?
  }

  lemma StepKeepsWf(c: Channel, s: Step)
    requires Wf(c) && Possible(c, s)
    ensures Wf(Next(c, s))
  {
  }

  lemma StepKeepsClosedMeansUnread(c: Channel, s: Step)
    requires Wf(c) && Possible(c, s) && ClosedMeansUnread(c) && c.rx != Timeout
    ensures ClosedMeansUnread(Next(c, s)) && Next(c, s).rx != Timeout
  {
  }

  // Any run at all, disturbed or not.
  ghost predicate PossibleRun(c: Channel, steps: seq<Step>)
    requires Wf(c)
    decreases steps
  {
    steps != [] ==>
      && Possible(c, steps[0])
      && (StepKeepsWf(c, steps[0]);
          PossibleRun(Next(c, steps[0]), steps[1..]))
  }

  function AnyRun(c: Channel, steps: seq<Step>): (d: Channel)
    requires Wf(c) && PossibleRun(c, steps)
    ensures Wf(d)
    decreases steps
  {
    if steps == [] then c
    else
      StepKeepsWf(c, steps[0]);
      AnyRun(Next(c, steps[0]), steps[1..])
  }

  lemma {:induction false} RunKeepsClosedMeansUnread(c: Channel, steps: seq<Step>)
    requires Wf(c) && PossibleRun(c, steps) && ClosedMeansUnread(c) && c.rx != Timeout
    ensures ClosedMeansUnread(AnyRun(c, steps)) && AnyRun(c, steps).rx != Timeout
    decreases steps
  {
    if steps != [] {
      StepKeepsWf(c, steps[0]);
      StepKeepsClosedMeansUnread(c, steps[0]);
      RunKeepsClosedMeansUnread(Next(c, steps[0]), steps[1..]);
    }
  }

  // The endpoint never goes deaf: after every run, with any packets, toggles, resets and
  // halts at any point, an endpoint with no byte unread answers ACK between calls, and
  // within one as soon as the last byte has been taken, unless it is halted.
  lemma NothingUnreadIsOpen(buffer: Bytes, steps: seq<Step>)
    requires PACKET_SIZE <= |buffer| && PossibleRun(Fresh(buffer), steps)
    ensures var c := AnyRun(Fresh(buffer), steps);
            c.count == 0 && (c.place == Idle || c.place == Draining || c.place == AckCount) ==>
              c.rx == Ack || c.rx == Stall
  {
    RunKeepsClosedMeansUnread(Fresh(buffer), steps);
  }

  // Main steps only, from a state that need not satisfy the invariant.
  ghost predicate MainRunWf(c: Channel, n: nat)
    decreases n
  {
    Wf(c) && (n > 0 ==> MainRunWf(MainStep(c), n - 1))
  }

  function MainRun(c: Channel, n: nat): Channel
    requires MainRunWf(c, n)
    decreases n
  {
    if n == 0 then c else MainRun(MainStep(c), n - 1)
  }

  lemma OneByteRead(c: Channel, a: Channel, b: Channel)
    requires Wf(c) && c.place.Reading? && c.place.i < PACKET_SIZE && c.count > 0
    requires a == MainStep(c) && Wf(a) && b == MainStep(a)
    ensures Wf(b)
    ensures b == c.(packet := c.packet + [c.buffer[c.point]], point := c.point + 1, count := c.count - 1,
                    place := if c.place.i + 1 == PACKET_SIZE then AckCount else Reading(c.place.i + 1),
                    rx := if c.count == 1 then Ack else c.rx)
  {
  }

  lemma FirstOfSlice(packet: Bytes, buffer: Bytes, at: nat, m: nat)
    requires 0 < m && at + m <= |buffer|
    ensures packet + buffer[at..at + m] == (packet + [buffer[at]]) + buffer[at + 1..at + m]
  {
  }

  // Reading m bytes takes 2m steps and appends the next m bytes of the buffer.
  lemma {:induction false} ReadingAppends(c: Channel, m: nat)
    requires Wf(c) && c.place.Reading? && c.place.i + m <= PACKET_SIZE && m <= c.count
    ensures MainRunWf(c, 2 * m)
    ensures var d := MainRun(c, 2 * m);
            Wf(d) && d.packet == c.packet + c.buffer[c.point..c.point + m]
            && d.place == (if c.place.i + m == PACKET_SIZE then if m == 0 then c.place else AckCount
                           else Reading(c.place.i + m))
            && d.count == c.count - m && d.point == c.point + m
            && d.buffer == c.buffer && d.whole == c.whole && d.current == c.current
            && d.log == c.log && d.handled == c.handled
            && (m < c.count ==> d.rx == c.rx)
    decreases m
  {
    if m > 0 {
      var a := MainStep(c);
      var b := MainStep(a);
      OneByteRead(c, a, b);
      if c.place.i + 1 < PACKET_SIZE {
        ReadingAppends(b, m - 1);
      }
      FirstOfSlice(c.packet, c.buffer, c.point, m);
      assert MainRunWf(a, 2 * m - 1) && MainRunWf(b, 2 * m - 2);
    }
  }

  // From such a state a second packet arriving after k bytes tears the frame: the device
  // handles the first k bytes of one packet followed by the start of another.
  lemma OpenEndpointTearsFrame(c: Channel, second: Bytes, k: nat)
    requires Wf(c) && c.place == Idle && c.rx == Ack && c.count == PACKET_SIZE && c.point == 0 && c.log != []
    requires |second| == PACKET_SIZE && 0 < k < PACKET_SIZE
    ensures var reading := MainStep(c);
            MainRunWf(reading, 2 * k)
            && var half := MainRun(reading, 2 * k);
               Possible(half, Out(second, true)) && Wf(half)
               && var landed := Next(half, Out(second, true));
                  MainRunWf(landed, 2 * (PACKET_SIZE - k) + 3)
                  && var d := MainRun(landed, 2 * (PACKET_SIZE - k) + 3);
                     d.place == Idle
                     && d.handled == c.handled + [c.buffer[..k] + second[..PACKET_SIZE - k]]
  {
    var reading := MainStep(c);
    ReadingAppends(reading, k);
    var half := MainRun(reading, 2 * k);
    var landed := Next(half, Out(second, true));
    var rest := PACKET_SIZE - k;
    ReadingAppends(landed, rest);
    assert landed.buffer[0..rest] == second[..rest];
    assert c.buffer[0..k] == c.buffer[..k];
    var read := MainRun(landed, 2 * rest);
    assert half.packet == c.buffer[..k];
    assert read.packet == c.buffer[..k] + second[..rest];
    FinishAck(read);
    MainRunSplit(landed, 2 * rest, 3);
  }

  // From such a state a packet the toggle check rejects tears the frame as well: it is in the
  // buffer before the handler looks, so the device handles the first k bytes of one packet
  // and the others of the rejected one.
  lemma RejectedPacketTearsFrame(c: Channel, second: Bytes, k: nat)
    requires Wf(c) && c.place == Idle && c.rx == Ack && c.count == PACKET_SIZE && c.point == 0 && c.log != []
    requires |second| == PACKET_SIZE && 0 < k < PACKET_SIZE
    ensures var reading := MainStep(c);
            MainRunWf(reading, 2 * k)
            && var half := MainRun(reading, 2 * k);
               Possible(half, Out(second, false)) && Wf(half)
               && var landed := Next(half, Out(second, false));
                  MainRunWf(landed, 2 * (PACKET_SIZE - k) + 3)
                  && var d := MainRun(landed, 2 * (PACKET_SIZE - k) + 3);
                     d.place == Idle && d.handled == c.handled + [c.buffer[..k] + second[k..]]
  {
    var reading := MainStep(c);
    ReadingAppends(reading, k);
    var half := MainRun(reading, 2 * k);
    var landed := Next(half, Out(second, false));
    var rest := PACKET_SIZE - k;
    ReadingAppends(landed, rest);
    assert landed.buffer[k..k + rest] == second[k..];
    assert c.buffer[0..k] == c.buffer[..k];
    assert half.packet == c.buffer[..k];
    var read := MainRun(landed, 2 * rest);
    assert read.packet == c.buffer[..k] + second[k..];
    FinishAck(read);
    MainRunSplit(landed, 2 * rest, 3);
  }

  lemma FinishAck(c: Channel)
    requires Wf(c) && c.place == AckCount
    ensures MainRunWf(c, 3)
    ensures MainRun(c, 3).place == Idle
    ensures MainRun(c, 3).handled == if c.whole then c.handled + [c.packet] else c.handled
  {
    var a := MainStep(c);
    var b := MainStep(a);
    var d := MainStep(b);
    assert MainRunWf(d, 0) && MainRunWf(b, 1) && MainRunWf(a, 2);
    assert MainRun(b, 1) == MainRun(d, 0) && MainRun(a, 2) == MainRun(b, 1);
  }

  lemma {:induction false} MainRunSplit(c: Channel, m: nat, n: nat)
    requires MainRunWf(c, m) && MainRunWf(MainRun(c, m), n)
    ensures MainRunWf(c, m + n) && MainRun(c, m + n) == MainRun(MainRun(c, m), n)
    decreases m
  {
    if m > 0 {
      MainRunSplit(MainStep(c), m - 1, n);
    }
  }
}
