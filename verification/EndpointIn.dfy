/**
 An IN endpoint of include/usb_hid.c as interleaved steps: the main code copies a report
 byte by byte and arms the endpoint, and interrupts may land between any two bytes.
 */
module EndpointIn {
  import opened Wrappers

  // Where the main code is inside a send.
  datatype Place = Idle | Waiting | Copying(i: nat)

  datatype Fate = Pending | Delivered | Lost

  // A report as submitted: the source buffer when its copy began, and how many bytes had
  // been copied when a bus reset first cleared the source under the copy, or all of them.
  datatype Entry = Entry(source: Bytes, cut: nat, fate: Fate)

  // `clears` tells whether a bus reset blanks the source buffer: it does for the keyboard
  // and consumer reports of endpoint 1 and does not for the packets of endpoint 2.
  datatype Pipe = Pipe(clears: bool, source: Bytes, place: Place, begun: Entry,
                       buffer: Bytes, txLen: nat, busy: bool, tx: Response,
                       log: seq<Entry>, received: seq<Bytes>)

  function Cleared(clears: bool, b: Bytes): (c: Bytes)
    ensures |c| == |b|
  {
    if clears && |b| > 0 then [b[0]] + seq(|b| - 1, _ => 0) else b
  }

  // What ends up in the endpoint's buffer.
  function Frame(clears: bool, e: Entry): (f: Bytes)
    requires e.cut <= |e.source|
    ensures |f| == |e.source|
  {
    e.source[..e.cut] + Cleared(clears, e.source)[e.cut..]
  }

  datatype Step =
    | Submit(report: Bytes)   // the main code fills the source buffer and calls send
    | Poll                    // one test of the busy flag
    | Copy                    // one byte, or the arming tail after the last one
    | HostReads               // the host takes the packet and the completion handler runs
    | BusReset
    | ClearHalt               // CLEAR_FEATURE(ENDPOINT_HALT)
    | SetHalt                 // SET_FEATURE(ENDPOINT_HALT)

  // A report always fits the endpoint's buffer.
  predicate Possible(p: Pipe, s: Step) {
    match s
    case Submit(report) => p.place == Idle && |report| <= |p.buffer|
    case Poll => p.place == Waiting
    case Copy => p.place.Copying?
    case HostReads => p.tx == Ack
    case BusReset => true
    case ClearHalt => true
    case SetHalt => true
  }

  // A report in flight when the endpoint stops answering ACK never arrives.
  function LoseLast(p: Pipe): seq<Entry> {
    if p.tx == Ack && p.log != [] then p.log[|p.log| - 1 := p.log[|p.log| - 1].(fate := Lost)] else p.log
  }

  function Next(p: Pipe, s: Step): Pipe
    requires Possible(p, s)
    requires p.place.Copying? ==> p.place.i <= |p.source| <= |p.buffer|
    requires p.txLen <= |p.buffer|
  {
    match s
    case Submit(report) => p.(source := report, place := Waiting)
    case Poll =>
      if p.busy then p else p.(place := Copying(0), begun := Entry(p.source, |p.source|, Pending))
    case Copy =>
      var i := p.place.i;
      if i < |p.source| then
        p.(buffer := p.buffer[i := p.source[i]], place := Copying(i + 1))
      else
        p.(txLen := |p.source|, busy := true, tx := Ack, place := Idle, log := p.log + [p.begun])
    case HostReads =>
      p.(received := p.received + [p.buffer[..p.txLen]],
         log := if p.log == [] then [] else p.log[|p.log| - 1 := p.log[|p.log| - 1].(fate := Delivered)],
         txLen := 0, tx := Nak, busy := false)
    case BusReset =>
      p.(tx := Nak, busy := false,
         source := Cleared(p.clears, p.source),
         begun := if p.clears && p.place.Copying? && p.place.i < p.begun.cut then p.begun.(cut := p.place.i)
                  else p.begun,
         log := LoseLast(p))
    case ClearHalt => p.(tx := Nak, log := LoseLast(p))
    case SetHalt => p.(tx := Stall, log := LoseLast(p))
  }

  predicate Disturbs(s: Step) {
    s.BusReset? || s.ClearHalt? || s.SetHalt?
  }

  function Fresh(clears: bool, source: Bytes, buffer: Bytes): Pipe {
    Pipe(clears, source, Idle, Entry([], 0, Pending), buffer, 0, false, Nak, [], [])
  }

  // ---------------------------------------------------------------- invariant

  // The reports delivered, as the host got them.
  function DeliveredFrames(clears: bool, log: seq<Entry>): seq<Bytes>
    requires forall e :: e in log ==> e.cut <= |e.source|
  {
    if log == [] then []
    else
      var last := log[|log| - 1];
      assert last in log;
      DeliveredFrames(clears, log[..|log| - 1])
      + (if last.fate == Delivered then [Frame(clears, last)] else [])
  }

  function CountLost(log: seq<Entry>): nat {
    if log == [] then 0
    else CountLost(log[..|log| - 1]) + (if log[|log| - 1].fate == Lost then 1 else 0)
  }

  ghost predicate LogWf(log: seq<Entry>, open: bool) {
    && (forall e :: e in log ==> e.cut <= |e.source|)
    && (forall i :: 0 <= i < |log| ==> (log[i].fate == Pending <==> open && i == |log| - 1))
  }

  // While a copy runs, the copied part of the buffer is the frame so far and the rest of
  // the source is what the frame still needs.
  ghost predicate CopyInv(p: Pipe) {
    p.place.Copying? ==>
      && p.place.i <= |p.source| <= |p.buffer|
      && p.begun.fate == Pending
      && p.begun.cut <= |p.begun.source| == |p.source|
      && (p.begun.cut < |p.begun.source| ==> p.clears && p.begun.cut <= p.place.i)
      && (forall j :: p.place.i <= j < |p.source| ==> p.source[j] == Frame(p.clears, p.begun)[j])
      && p.buffer[..p.place.i] == Frame(p.clears, p.begun)[..p.place.i]
  }

  ghost predicate Inv(p: Pipe) {
    && p.txLen <= |p.buffer| && |p.source| <= |p.buffer|
    // The interlock: an armed endpoint is busy, and a busy endpoint is never copied into.
    && (p.tx == Ack ==> p.busy && p.log != [])
    && (p.place.Copying? ==> !p.busy)
    && LogWf(p.log, p.tx == Ack)
    && (p.tx == Ack ==> p.buffer[..p.txLen] == Frame(p.clears, p.log[|p.log| - 1]))
    && CopyInv(p)
    && p.received == DeliveredFrames(p.clears, p.log)
  }

  // ---------------------------------------------------------------- proofs

  lemma FrameByte(clears: bool, e: Entry, i: nat)
    requires e.cut <= |e.source| && i < |e.source|
    ensures Frame(clears, e)[i] == if i < e.cut then e.source[i] else Cleared(clears, e.source)[i]
  {
  }

  lemma {:induction false} DeliveredAppend(clears: bool, log: seq<Entry>, e: Entry)
    requires (forall x :: x in log ==> x.cut <= |x.source|) && e.cut <= |e.source|
    ensures forall x :: x in log + [e] ==> x.cut <= |x.source|
    ensures DeliveredFrames(clears, log + [e]) ==
      DeliveredFrames(clears, log) + (if e.fate == Delivered then [Frame(clears, e)] else [])
  {
    assert (log + [e])[..|log|] == log;
  }

  lemma DecideLast(clears: bool, log: seq<Entry>, fate: Fate)
    requires LogWf(log, true) && log != [] && fate != Pending
    ensures var last := log[|log| - 1];
            var after := log[|log| - 1 := last.(fate := fate)];
            LogWf(after, false)
            && DeliveredFrames(clears, after) ==
                 DeliveredFrames(clears, log) + (if fate == Delivered then [Frame(clears, last)] else [])
            && CountLost(after) == CountLost(log) + (if fate == Lost then 1 else 0)
  {
    var n := |log| - 1;
    var last := log[n];
    var after := log[n := last.(fate := fate)];
    assert after == log[..n] + [last.(fate := fate)] && log == log[..n] + [last];
    assert after[..n] == log[..n];
    DeliveredAppend(clears, log[..n], last);
    DeliveredAppend(clears, log[..n], last.(fate := fate));
    assert Frame(clears, last.(fate := fate)) == Frame(clears, last);
  }

  lemma SubmitKeeps(p: Pipe, report: Bytes)
    requires Inv(p) && Possible(p, Submit(report))
    ensures Inv(Next(p, Submit(report)))
  {
  }

  lemma PollKeeps(p: Pipe)
    requires Inv(p) && Possible(p, Poll)
    ensures Inv(Next(p, Poll))
  {
  }

  lemma CopyByteKeeps(p: Pipe)
    requires Inv(p) && Possible(p, Copy) && p.place.i < |p.source|
    ensures Inv(Next(p, Copy))
  {
    var i := p.place.i;
    FrameByte(p.clears, p.begun, i);
    var f, b := Frame(p.clears, p.begun), p.buffer[i := p.source[i]];
    assert b[..i + 1] == b[..i] + [b[i]] && f[..i + 1] == f[..i] + [f[i]];
    assert b[..i] == p.buffer[..i];
  }

  lemma ArmKeeps(p: Pipe)
    requires Inv(p) && Possible(p, Copy) && p.place.i == |p.source|
    ensures Inv(Next(p, Copy))
  {
    var f := Frame(p.clears, p.begun);
    assert f[..|p.source|] == f;
    DeliveredAppend(p.clears, p.log, p.begun);
  }

  lemma HostReadsKeeps(p: Pipe)
    requires Inv(p) && Possible(p, HostReads)
    ensures Inv(Next(p, HostReads))
  {
    DecideLast(p.clears, p.log, Delivered);
  }

  lemma LoseKeeps(p: Pipe)
    requires Inv(p)
    ensures LogWf(LoseLast(p), false)
    ensures DeliveredFrames(p.clears, LoseLast(p)) == DeliveredFrames(p.clears, p.log)
    ensures CountLost(LoseLast(p)) == CountLost(p.log) + (if p.tx == Ack then 1 else 0)
  {
    if p.tx == Ack {
      DecideLast(p.clears, p.log, Lost);
    }
  }

  lemma ResetKeepsCopy(p: Pipe)
    requires Inv(p) && p.place.Copying?
    ensures CopyInv(Next(p, BusReset))
  {
    var q := Next(p, BusReset);
    var i := p.place.i;
    forall j | i <= j < |p.source|
      ensures q.source[j] == Frame(p.clears, q.begun)[j]
    {
      FrameByte(p.clears, q.begun, j);
      FrameByte(p.clears, p.begun, j);
    }
    forall j | 0 <= j < i
      ensures q.buffer[j] == Frame(p.clears, q.begun)[j]
    {
      FrameByte(p.clears, q.begun, j);
      FrameByte(p.clears, p.begun, j);
      assert p.buffer[..i][j] == Frame(p.clears, p.begun)[..i][j];
    }
    assert q.buffer[..i] == Frame(p.clears, q.begun)[..i];
  }

  lemma DisturbanceKeeps(p: Pipe, s: Step)
    requires Inv(p) && Disturbs(s)
    ensures Inv(Next(p, s))
  {
    LoseKeeps(p);
    if s.BusReset? && p.place.Copying? {
      ResetKeepsCopy(p);
    }
  }

  lemma StepKeepsInv(p: Pipe, s: Step)
    requires Inv(p) && Possible(p, s)
    ensures Inv(Next(p, s))
  {
    match s
    case Submit(report) => SubmitKeeps(p, report);
    case Poll => PollKeeps(p);
    case Copy =>
      if p.place.i < |p.source| {
        CopyByteKeeps(p);
      } else {
        ArmKeeps(p);
      }
    case HostReads => HostReadsKeeps(p);
    case BusReset => DisturbanceKeeps(p, s);
    case ClearHalt => DisturbanceKeeps(p, s);
    case SetHalt => DisturbanceKeeps(p, s);
  }
}
