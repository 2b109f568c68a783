/**
 What the host gets from an IN endpoint over whole runs, and what happens when a bus reset
 or an endpoint-halt request lands in the middle.
 */
module EndpointInLaws {
  import opened Wrappers
  import opened EndpointIn

  function Run(p: Pipe, steps: seq<Step>): (q: Pipe)
    requires Inv(p) && PossibleRun(p, steps)
    ensures Inv(q)
    decreases steps
  {
    if steps == [] then p
    else
      StepKeepsInv(p, steps[0]);
      Run(Next(p, steps[0]), steps[1..])
  }

  ghost predicate PossibleRun(p: Pipe, steps: seq<Step>)
    requires Inv(p)
    decreases steps
  {
    steps != [] ==>
      && Possible(p, steps[0])
      && (StepKeepsInv(p, steps[0]);
          PossibleRun(Next(p, steps[0]), steps[1..]))
  }

  // ---------------------------------------------------------------- the interlock

  // In every state of every run: while the endpoint is armed the main code is not copying,
  // and the buffer holds exactly the frame of the last report submitted.
  lemma ArmedBufferIsUntouched(clears: bool, source: Bytes, buffer: Bytes, steps: seq<Step>)
    requires |source| <= |buffer| && PossibleRun(Fresh(clears, source, buffer), steps)
    ensures var q := Run(Fresh(clears, source, buffer), steps);
            q.tx == Ack ==>
              q.busy && !q.place.Copying? && q.log != []
              && q.log[|q.log| - 1].cut <= |q.log[|q.log| - 1].source|
              && q.buffer[..q.txLen] == Frame(clears, q.log[|q.log| - 1])
  {
    RunKeepsKind(Fresh(clears, source, buffer), steps);
  }

  lemma {:induction false} RunKeepsKind(p: Pipe, steps: seq<Step>)
    requires Inv(p) && PossibleRun(p, steps)
    ensures Run(p, steps).clears == p.clears
    decreases steps
  {
    if steps != [] {
      StepKeepsInv(p, steps[0]);
      RunKeepsKind(Next(p, steps[0]), steps[1..]);
    }
  }

  // ---------------------------------------------------------------- losses

  predicate Halts(s: Step) {
    s.ClearHalt? || s.SetHalt?
  }

  // The resets and halt requests of a run that catch a report in flight.
  ghost function CountCaught(p: Pipe, steps: seq<Step>): nat
    requires Inv(p) && PossibleRun(p, steps)
    decreases steps
  {
    if steps == [] then 0
    else
      StepKeepsInv(p, steps[0]);
      (if Disturbs(steps[0]) && p.tx == Ack then 1 else 0) + CountCaught(Next(p, steps[0]), steps[1..])
  }

  lemma StepLoses(p: Pipe, s: Step)
    requires Inv(p) && Possible(p, s)
    ensures CountLost(Next(p, s).log) == CountLost(p.log) + (if Disturbs(s) && p.tx == Ack then 1 else 0)
  {
    match s
    case Copy =>
      if p.place.i == |p.source| {
        assert (p.log + [p.begun])[..|p.log|] == p.log;
      }
    case HostReads => DecideLast(p.clears, p.log, Delivered);
    case BusReset => LoseKeeps(p);
    case ClearHalt => LoseKeeps(p);
    case SetHalt => LoseKeeps(p);
    case Submit(_) =>
    case Poll =>
  }

  // A run loses exactly one report for each reset or halt request that catches one.
  lemma {:induction false} LossesAreCounted(p: Pipe, steps: seq<Step>)
    requires Inv(p) && PossibleRun(p, steps)
    ensures CountLost(Run(p, steps).log) == CountLost(p.log) + CountCaught(p, steps)
    decreases steps
  {
    if steps != [] {
      StepKeepsInv(p, steps[0]);
      StepLoses(p, steps[0]);
      LossesAreCounted(Next(p, steps[0]), steps[1..]);
    }
  }

  // Every report is delivered, lost or in flight.
  lemma {:induction false} Conservation(clears: bool, log: seq<Entry>, open: bool)
    requires LogWf(log, open)
    ensures |log| == |DeliveredFrames(clears, log)| + CountLost(log) + (if open && log != [] then 1 else 0)
    decreases |log|
  {
    if log != [] {
      var n := |log| - 1;
      Conservation(clears, log[..n], false);
    }
  }

  // ---------------------------------------------------------------- whole delivery

  function Sources(log: seq<Entry>): (r: seq<Bytes>)
    ensures |r| == |log|
  {
    if log == [] then [] else Sources(log[..|log| - 1]) + [log[|log| - 1].source]
  }

  ghost predicate CutsFit(log: seq<Entry>) {
    forall e :: e in log ==> e.cut <= |e.source|
  }

  function Frames(clears: bool, log: seq<Entry>): (r: seq<Bytes>)
    requires CutsFit(log)
    ensures |r| == |log|
  {
    if log == [] then []
    else
      var last := log[|log| - 1];
      assert last in log;
      Frames(clears, log[..|log| - 1]) + [Frame(clears, last)]
  }

  // How many of the reports submitted are no longer in flight.
  function Settled(p: Pipe): (n: nat)
    ensures n <= |p.log|
  {
    if p.tx == Ack && p.log != [] then |p.log| - 1 else |p.log|
  }

  ghost predicate Uncut(e: Entry) {
    e.cut == |e.source|
  }

  // The report in flight or under the copy, if any, is not torn.
  ghost predicate OpenWhole(p: Pipe) {
    && (p.tx == Ack && p.log != [] ==> Uncut(p.log[|p.log| - 1]))
    && (p.place.Copying? ==> Uncut(p.begun))
  }

  // A step that costs a report: a bus reset, or a halt request while one is in flight.
  predicate Costs(p: Pipe, s: Step) {
    s.BusReset? || (Halts(s) && p.tx == Ack)
  }

  ghost predicate Spared(p: Pipe, steps: seq<Step>)
    requires Inv(p) && PossibleRun(p, steps)
    decreases steps
  {
    steps != [] ==>
      && !Costs(p, steps[0])
      && (StepKeepsInv(p, steps[0]);
          Spared(Next(p, steps[0]), steps[1..]))
  }

  // Nothing submitted from number n on is lost, and nothing from number m on is torn.
  ghost predicate Stretch(p: Pipe, n: nat, m: nat) {
    && n <= Settled(p)
    && (forall i :: n <= i < |p.log| ==> p.log[i].fate != Lost)
    && (forall i :: m <= i < |p.log| ==> Uncut(p.log[i]))
    && (p.place.Copying? && m <= |p.log| ==> Uncut(p.begun))
  }

  lemma SparedStepKeepsStretch(p: Pipe, s: Step, n: nat, m: nat)
    requires Inv(p) && Possible(p, s) && !Costs(p, s) && Stretch(p, n, m)
    ensures var q := Next(p, s);
            Stretch(q, n, m) && q.log[..n] == p.log[..n] && q.clears == p.clears
  {
  }

  lemma {:induction false} SparedRunKeepsStretch(p: Pipe, steps: seq<Step>, n: nat, m: nat)
    requires Inv(p) && PossibleRun(p, steps) && Spared(p, steps) && Stretch(p, n, m)
    ensures var q := Run(p, steps);
            Stretch(q, n, m) && q.log[..n] == p.log[..n] && q.clears == p.clears
    decreases steps
  {
    if steps != [] {
      StepKeepsInv(p, steps[0]);
      SparedStepKeepsStretch(p, steps[0], n, m);
      SparedRunKeepsStretch(Next(p, steps[0]), steps[1..], n, m);
    }
  }

  lemma {:induction false} DeliveredConcat(clears: bool, a: seq<Entry>, b: seq<Entry>)
    requires CutsFit(a) && CutsFit(b)
    ensures CutsFit(a + b)
    ensures DeliveredFrames(clears, a + b) == DeliveredFrames(clears, a) + DeliveredFrames(clears, b)
    decreases |b|
  {
    if b == [] {
      assert a + b == a;
    } else {
      var n := |b| - 1;
      assert a + b == (a + b[..n]) + [b[n]] && b == b[..n] + [b[n]];
      DeliveredConcat(clears, a, b[..n]);
      DeliveredAppend(clears, a + b[..n], b[n]);
      DeliveredAppend(clears, b[..n], b[n]);
    }
  }

  lemma {:induction false} AllDelivered(clears: bool, log: seq<Entry>)
    requires CutsFit(log) && forall i :: 0 <= i < |log| ==> log[i].fate == Delivered
    ensures DeliveredFrames(clears, log) == Frames(clears, log)
    decreases |log|
  {
    if log != [] {
      AllDelivered(clears, log[..|log| - 1]);
    }
  }

  lemma {:induction false} UncutFramesAreSources(clears: bool, log: seq<Entry>)
    requires CutsFit(log) && forall i :: 0 <= i < |log| ==> Uncut(log[i])
    ensures Frames(clears, log) == Sources(log)
    decreases |log|
  {
    if log != [] {
      var last := log[|log| - 1];
      UncutFramesAreSources(clears, log[..|log| - 1]);
      assert last in log && Frame(clears, last) == last.source;
    }
  }

  lemma SettledReceived(q: Pipe)
    requires Inv(q)
    ensures CutsFit(q.log[..Settled(q)])
    ensures q.received == DeliveredFrames(q.clears, q.log[..Settled(q)])
  {
    var k := Settled(q);
    if k < |q.log| {
      assert q.log == q.log[..k] + [q.log[k]];
      DeliveredAppend(q.clears, q.log[..k], q.log[k]);
    } else {
      assert q.log[..k] == q.log;
    }
  }

  // What a state's host has, split at any settled entry after which nothing was lost.
  lemma ReceivedSplits(q: Pipe, n: nat)
    requires Inv(q) && n <= Settled(q) && forall i :: n <= i < |q.log| ==> q.log[i].fate != Lost
    ensures CutsFit(q.log[..n]) && CutsFit(q.log[n..Settled(q)])
    ensures q.received == DeliveredFrames(q.clears, q.log[..n]) + Frames(q.clears, q.log[n..Settled(q)])
  {
    var k := Settled(q);
    SettledReceived(q);
    SplitDelivered(q.clears, q.log[..n], q.log[n..k], q.log[..k]);
  }

  lemma SplitDelivered(clears: bool, a: seq<Entry>, b: seq<Entry>, all: seq<Entry>)
    requires all == a + b && CutsFit(all) && forall i :: 0 <= i < |b| ==> b[i].fate == Delivered
    ensures CutsFit(a) && CutsFit(b)
    ensures DeliveredFrames(clears, all) == DeliveredFrames(clears, a) + Frames(clears, b)
  {
    DeliveredConcat(clears, a, b);
    AllDelivered(clears, b);
  }

  // From any reachable state, through any run without a bus reset and without a halt
  // request that catches a report, the host gets exactly the frames of what settles, in
  // order; and only the report already open at the start can be torn.
  lemma StretchDelivers(p: Pipe, steps: seq<Step>)
    requires Inv(p) && PossibleRun(p, steps) && Spared(p, steps)
    ensures var q, n := Run(p, steps), Settled(p);
            n <= Settled(q) && CutsFit(q.log[n..Settled(q)])
            && q.received == p.received + Frames(p.clears, q.log[n..Settled(q)])
            && forall i :: n <= i < |q.log| && (i > n || OpenWhole(p)) ==> Uncut(q.log[i])
  {
    var n := Settled(p);
    var m := if OpenWhole(p) then n else n + 1;
    var q := Run(p, steps);
    SparedRunKeepsStretch(p, steps, n, m);
    ReceivedSplits(q, n);
    SettledReceived(p);
  }

  // With none torn at the start, they are the sources themselves.
  lemma SettledReportsArrive(p: Pipe, steps: seq<Step>)
    requires Inv(p) && PossibleRun(p, steps) && Spared(p, steps) && OpenWhole(p)
    ensures var q, n := Run(p, steps), Settled(p);
            n <= Settled(q) && q.received == p.received + Sources(q.log[n..Settled(q)])
  {
    var q, n := Run(p, steps), Settled(p);
    StretchDelivers(p, steps);
    UncutFramesAreSources(p.clears, q.log[n..Settled(q)]);
  }

  // ---------------------------------------------------------------- what was submitted

  function Submitted(s: Step): seq<Bytes> {
    if s.Submit? then [s.report] else []
  }

  // The reports the main code hands over in a run, in order.
  function Submits(steps: seq<Step>): seq<Bytes>
    decreases steps
  {
    if steps == [] then [] else Submitted(steps[0]) + Submits(steps[1..])
  }

  // The report of a send that has not armed the endpoint yet.
  function Open(p: Pipe): seq<Bytes> {
    match p.place
    case Idle => []
    case Waiting => [p.source]
    case Copying(_) => [p.begun.source]
  }

  lemma DecidedSources(log: seq<Entry>, fate: Fate)
    requires log != []
    ensures Sources(log[|log| - 1 := log[|log| - 1].(fate := fate)]) == Sources(log)
  {
    var n := |log| - 1;
    var after := log[n := log[n].(fate := fate)];
    assert after[..n] == log[..n];
  }

  ghost predicate LogsExactly(p: Pipe, q: Pipe, reports: seq<Bytes>) {
    Sources(q.log) + Open(q) == Sources(p.log) + Open(p) + reports
  }

  lemma StepLogsWhatWasSubmitted(p: Pipe, s: Step)
    requires Inv(p) && Possible(p, s) && !s.BusReset?
    ensures LogsExactly(p, Next(p, s), Submitted(s))
  {
    if s.Submit? || s.Poll? {
      BeginLogs(p, s, Next(p, s));
    } else if s.Copy? {
      CopyLogs(p, Next(p, s));
    } else if s.HostReads? {
      ReadLogs(p, Next(p, s));
    } else {
      HaltLogs(p, s, Next(p, s));
    }
  }

  lemma BeginLogs(p: Pipe, s: Step, q: Pipe)
    requires Inv(p) && Possible(p, s) && (s.Submit? || s.Poll?) && q == Next(p, s)
    ensures LogsExactly(p, q, Submitted(s))
  {
  }

  lemma ReadLogs(p: Pipe, q: Pipe)
    requires Inv(p) && Possible(p, HostReads) && q == Next(p, HostReads)
    ensures LogsExactly(p, q, [])
  {
    DecidedSources(p.log, Delivered);
  }

  lemma HaltLogs(p: Pipe, s: Step, q: Pipe)
    requires Inv(p) && Halts(s) && q == Next(p, s)
    ensures LogsExactly(p, q, [])
  {
    LostSources(p);
  }

  lemma CopyLogs(p: Pipe, q: Pipe)
    requires Inv(p) && Possible(p, Copy) && q == Next(p, Copy)
    ensures LogsExactly(p, q, [])
  {
    if p.place.i == |p.source| {
      SourcesAppend(p.log, p.begun);
    }
  }

  lemma LostSources(p: Pipe)
    ensures Sources(LoseLast(p)) == Sources(p.log)
  {
    if p.tx == Ack && p.log != [] {
      DecidedSources(p.log, Lost);
    }
  }

  // Over every run without a bus reset, the reports logged and the one still open are
  // exactly those that were there before and those the main code submitted, in order.
  lemma {:induction false} SubmittedReportsAreLogged(p: Pipe, steps: seq<Step>)
    requires Inv(p) && PossibleRun(p, steps) && BusReset !in steps
    ensures Sources(Run(p, steps).log) + Open(Run(p, steps)) == Sources(p.log) + Open(p) + Submits(steps)
    decreases steps
  {
    if steps != [] {
      assert steps[0] in steps;
      StepKeepsInv(p, steps[0]);
      StepLogsWhatWasSubmitted(p, steps[0]);
      SubmittedReportsAreLogged(Next(p, steps[0]), steps[1..]);
      Reassociate(Sources(p.log) + Open(p), Submitted(steps[0]), Submits(steps[1..]));
    }
  }

  lemma {:induction false} SparedHasNoReset(p: Pipe, steps: seq<Step>)
    requires Inv(p) && PossibleRun(p, steps) && Spared(p, steps)
    ensures BusReset !in steps
    decreases steps
  {
    if steps != [] {
      StepKeepsInv(p, steps[0]);
      SparedHasNoReset(Next(p, steps[0]), steps[1..]);
    }
  }

  // The report the endpoint is armed with.
  function Flight(p: Pipe): seq<Bytes> {
    if p.tx == Ack && p.log != [] then [p.log[|p.log| - 1].source] else []
  }

  // So between resets and caught halt requests: what the host has, the report in flight
  // and the one still open are together exactly what these were at the start and the
  // reports the main code submitted since, whole and in order. Only a report torn before
  // the start is excepted (OnlyTheOpenReportIsTorn).
  lemma HostGetsWhatWasSubmitted(p: Pipe, steps: seq<Step>)
    requires Inv(p) && PossibleRun(p, steps) && Spared(p, steps) && OpenWhole(p)
    ensures var q := Run(p, steps);
            q.received + Flight(q) + Open(q) == p.received + Flight(p) + Open(p) + Submits(steps)
  {
    var q, n := Run(p, steps), Settled(p);
    SettledReportsArrive(p, steps);
    SparedHasNoReset(p, steps);
    SubmittedReportsAreLogged(p, steps);
    LogsSplit(p, q, steps);
    Balance(p.received, Sources(p.log[..n]), Sources(q.log[n..Settled(q)]), Sources(p.log), Sources(q.log),
            Flight(q), Open(q), Flight(p), Open(p), Submits(steps));
  }

  lemma LogsSplit(p: Pipe, q: Pipe, steps: seq<Step>)
    requires Inv(p) && PossibleRun(p, steps) && Spared(p, steps) && OpenWhole(p) && q == Run(p, steps)
    requires Settled(p) <= Settled(q)
    ensures Sources(p.log) == Sources(p.log[..Settled(p)]) + Flight(p)
    ensures Sources(q.log) == Sources(p.log[..Settled(p)]) + Sources(q.log[Settled(p)..Settled(q)]) + Flight(q)
  {
    SparedRunKeepsStretch(p, steps, Settled(p), Settled(p));
    SettledThenFlight(p);
    SettledAndFlight(q, Settled(p));
  }

  // What the logs say of the reports holds of what was received.
  lemma Balance(received: seq<Bytes>, settled: seq<Bytes>, gained: seq<Bytes>, before: seq<Bytes>, after: seq<Bytes>,
                flight: seq<Bytes>, open: seq<Bytes>, flight0: seq<Bytes>, open0: seq<Bytes>, submits: seq<Bytes>)
    requires before == settled + flight0 && after == settled + gained + flight
    requires after + open == before + open0 + submits
    ensures received + gained + flight + open == received + flight0 + open0 + submits
  {
    SamePrefix(settled, gained, flight, open, flight0, open0, submits, received);
  }

  lemma SettledThenFlight(p: Pipe)
    ensures Sources(p.log) == Sources(p.log[..Settled(p)]) + Flight(p)
  {
    var k := Settled(p);
    if k < |p.log| {
      assert p.log == p.log[..k] + [p.log[k]];
      SourcesAppend(p.log[..k], p.log[k]);
    } else {
      assert p.log == p.log[..k];
    }
  }

  lemma SettledAndFlight(q: Pipe, n: nat)
    requires n <= Settled(q)
    ensures Sources(q.log) == Sources(q.log[..n]) + Sources(q.log[n..Settled(q)]) + Flight(q)
  {
    var k := Settled(q);
    assert q.log[..k] == q.log[..n] + q.log[n..k];
    SourcesConcat(q.log[..n], q.log[n..k]);
    SettledThenFlight(q);
  }

  // Two ways to go on from a common part go on from any.
  lemma SamePrefix(a: seq<Bytes>, b: seq<Bytes>, c: seq<Bytes>, d: seq<Bytes>,
                   e: seq<Bytes>, f: seq<Bytes>, g: seq<Bytes>, other: seq<Bytes>)
    requires a + b + c + d == a + e + f + g
    ensures other + b + c + d == other + e + f + g
  {
    SuffixOf(a, b, c, d);
    SuffixOf(a, e, f, g);
    assert (a + (b + c + d))[|a|..] == b + c + d && (a + (e + f + g))[|a|..] == e + f + g;
    SuffixOf(other, b, c, d);
    SuffixOf(other, e, f, g);
  }

  lemma SuffixOf(a: seq<Bytes>, b: seq<Bytes>, c: seq<Bytes>, d: seq<Bytes>)
    ensures a + b + c + d == a + (b + c + d)
  {
  }

  lemma {:induction false} SourcesConcat(a: seq<Entry>, b: seq<Entry>)
    ensures Sources(a + b) == Sources(a) + Sources(b)
    decreases |b|
  {
    if b == [] {
      assert a + b == a;
    } else {
      var n := |b| - 1;
      SourcesConcat(a, b[..n]);
      SourcesAppend(a + b[..n], b[n]);
      assert a + b == a + b[..n] + [b[n]];
    }
  }

  // ---------------------------------------------------------------- torn at the start

  // And if a reset did tear the report under the copy, all later ones are whole.
  lemma OnlyTheOpenReportIsTorn(p: Pipe, steps: seq<Step>)
    requires Inv(p) && PossibleRun(p, steps) && Spared(p, steps) && Settled(p) < Settled(Run(p, steps))
    ensures var q, n := Run(p, steps), Settled(p);
            q.log[n].cut <= |q.log[n].source|
            && q.received == p.received + ([Frame(p.clears, q.log[n])] + Sources(q.log[n + 1..Settled(q)]))
  {
    var q, n := Run(p, steps), Settled(p);
    StretchDelivers(p, steps);
    FirstOfPart(p.clears, q.log, n, Settled(q));
  }

  lemma FirstOfPart(clears: bool, log: seq<Entry>, n: nat, k: nat)
    requires n < k <= |log| && CutsFit(log[n..k]) && forall i :: n < i < k ==> Uncut(log[i])
    ensures log[n].cut <= |log[n].source|
    ensures Frames(clears, log[n..k]) == [Frame(clears, log[n])] + Sources(log[n + 1..k])
  {
    FirstThenSources(clears, log[n..k]);
    assert log[n..k][1..] == log[n + 1..k];
  }

  lemma {:induction false} FirstThenSources(clears: bool, log: seq<Entry>)
    requires CutsFit(log) && log != [] && forall i :: 0 < i < |log| ==> Uncut(log[i])
    ensures StartsWithFrame(clears, log)
    decreases |log|
  {
    var init, last := log[..|log| - 1], log[|log| - 1];
    assert last in log && log == init + [last];
    if init == [] {
      assert log == [last];
      SingleFrame(clears, last);
    } else {
      FirstThenSources(clears, init);
      OneMoreSource(clears, init, last);
    }
  }

  ghost predicate StartsWithFrame(clears: bool, log: seq<Entry>) {
    && CutsFit(log) && log != []
    && log[0].cut <= |log[0].source|
    && Frames(clears, log) == [Frame(clears, log[0])] + Sources(log[1..])
  }

  lemma SingleFrame(clears: bool, e: Entry)
    requires e.cut <= |e.source|
    ensures StartsWithFrame(clears, [e])
  {
    assert [e][..0] == [] && [e][1..] == [];
    assert Frames(clears, [e]) == [] + [Frame(clears, e)] && Sources([e][1..]) == [];
    NothingAround([Frame(clears, e)]);
  }

  lemma NothingAround(a: seq<Bytes>)
    ensures [] + a == a + []
  {
  }

  lemma OneMoreSource(clears: bool, init: seq<Entry>, last: Entry)
    requires StartsWithFrame(clears, init) && Uncut(last)
    ensures StartsWithFrame(clears, init + [last])
  {
    FramesAppend(clears, init, last);
    UncutFrame(clears, last);
    assert (init + [last])[1..] == init[1..] + [last];
    SourcesAppend(init[1..], last);
    Reassociate([Frame(clears, init[0])], Sources(init[1..]), [last.source]);
  }

  lemma Reassociate(a: seq<Bytes>, b: seq<Bytes>, c: seq<Bytes>)
    ensures (a + b) + c == a + (b + c)
  {
  }

  lemma UncutFrame(clears: bool, e: Entry)
    requires Uncut(e)
    ensures Frame(clears, e) == e.source
  {
  }

  lemma FramesAppend(clears: bool, log: seq<Entry>, e: Entry)
    requires CutsFit(log) && e.cut <= |e.source|
    ensures CutsFit(log + [e]) && Frames(clears, log + [e]) == Frames(clears, log) + [Frame(clears, e)]
  {
    assert (log + [e])[..|log|] == log;
  }

  lemma SourcesAppend(log: seq<Entry>, e: Entry)
    ensures Sources(log + [e]) == Sources(log) + [e.source]
  {
    assert (log + [e])[..|log|] == log;
  }

  // Whatever state a bus reset hits, the next stretch can start there, unless it tore a
  // report under the copy.
  lemma ResetStartsAStretch(p: Pipe)
    requires Inv(p)
    ensures var q := Next(p, BusReset);
            Inv(q) && q.tx != Ack && Settled(q) == |p.log|
            && (OpenWhole(q) <==>
                  !(p.place.Copying? && (!Uncut(p.begun) || (p.clears && p.place.i < |p.begun.source|))))
  {
    StepKeepsInv(p, BusReset);
  }

  // ---------------------------------------------------------------- torn reports

  // A report reaches the host as submitted exactly when no bus reset cleared its source
  // under the copy, or only bytes that were zero anyway remained.
  lemma FrameIsWholeExactly(clears: bool, e: Entry)
    requires e.cut <= |e.source|
    ensures Frame(clears, e) == e.source <==>
      !clears || forall j :: 1 <= j < |e.source| && e.cut <= j ==> e.source[j] == 0
  {
    forall j | 0 <= j < |e.source|
      ensures Frame(clears, e)[j] == if clears && 1 <= j && e.cut <= j then 0 else e.source[j]
    {
      FrameByte(clears, e, j);
    }
  }

  lemma {:induction false} RunAppend(p: Pipe, first: seq<Step>, second: seq<Step>)
    requires Inv(p) && PossibleRun(p, first) && PossibleRun(Run(p, first), second)
    ensures PossibleRun(p, first + second)
    ensures Run(p, first + second) == Run(Run(p, first), second)
    decreases first
  {
    if first == [] {
      assert first + second == second;
    } else {
      StepKeepsInv(p, first[0]);
      RunAppend(Next(p, first[0]), first[1..], second);
      assert (first + second)[1..] == first[1..] + second;
    }
  }

  function Copies(m: nat): (steps: seq<Step>)
    ensures |steps| == m
  {
    seq(m, _ => Copy)
  }

  // Copying m bytes without interruption only moves the copy position.
  lemma {:induction false} CopiesAdvance(p: Pipe, m: nat)
    requires Inv(p) && p.place.Copying? && p.place.i + m <= |p.source|
    ensures PossibleRun(p, Copies(m))
    ensures var q := Run(p, Copies(m));
            q == p.(place := Copying(p.place.i + m), buffer := q.buffer)
            && |q.buffer| == |p.buffer| && q.buffer[p.place.i + m..] == p.buffer[p.place.i + m..]
    decreases m
  {
    if m > 0 {
      StepKeepsInv(p, Copy);
      assert Copies(m)[1..] == Copies(m - 1);
      CopiesAdvance(Next(p, Copy), m - 1);
    }
  }

  lemma OneStep(p: Pipe, s: Step)
    requires Inv(p) && Possible(p, s)
    ensures PossibleRun(p, [s]) && Run(p, [s]) == Next(p, s)
  {
    StepKeepsInv(p, s);
    assert [s][1..] == [];
  }

  // The main code's steps for one report when the busy flag is clear.
  function SendSteps(report: Bytes): seq<Step> {
    [Submit(report)] + [Poll] + Copies(|report|) + [Copy]
  }

  // A send that nothing interrupts arms the endpoint with the report as submitted.
  lemma UninterruptedSend(p: Pipe, report: Bytes)
    requires Inv(p) && !p.busy && Possible(p, Submit(report))
    ensures PossibleRun(p, SendSteps(report))
    ensures var q := Run(p, SendSteps(report));
            q.tx == Ack && q.busy && q.txLen == |report| && q.place == Idle
            && q.buffer == report + p.buffer[|report|..]
            && q.log == p.log + [Entry(report, |report|, Pending)] && q.received == p.received
  {
    var a, b := Next(p, Submit(report)), Next(Next(p, Submit(report)), Poll);
    OneStep(p, Submit(report));
    OneStep(a, Poll);
    RunAppend(p, [Submit(report)], [Poll]);
    StepKeepsInv(p, Submit(report));
    StepKeepsInv(a, Poll);
    CopiesAdvance(b, |report|);
    RunAppend(p, [Submit(report)] + [Poll], Copies(|report|));
    var c := Run(b, Copies(|report|));
    OneStep(c, Copy);
    RunAppend(p, [Submit(report)] + [Poll] + Copies(|report|), [Copy]);
    WholeReportArmed(c, report, p.buffer[|report|..]);
  }

  lemma WholeReportArmed(c: Pipe, report: Bytes, tail: Bytes)
    requires Inv(c) && c.place == Copying(|report|) && c.source == report && c.begun == Entry(report, |report|, Pending)
    requires |report| <= |c.buffer| && c.buffer[|report|..] == tail
    ensures c.buffer == report + tail
  {
    assert Frame(c.clears, c.begun) == report;
    assert c.buffer == c.buffer[..|report|] + c.buffer[|report|..];
  }

  // A send and the host's read of it.
  function Deliveries(reports: seq<Bytes>): seq<Step> {
    if reports == [] then [] else SendSteps(reports[0]) + [HostReads] + Deliveries(reports[1..])
  }

  ghost predicate AtRest(p: Pipe) {
    p.place == Idle && !p.busy && p.tx == Nak && p.txLen == 0
  }

  // From any state in which the flag is clear and the main code is not sending, halted or
  // not, every report sent and read arrives whole and in order, and the endpoint is at rest.
  lemma {:induction false} UndisturbedReportsArrive(p: Pipe, reports: seq<Bytes>)
    requires Inv(p) && p.place == Idle && !p.busy && forall r :: r in reports ==> |r| <= |p.buffer|
    ensures PossibleRun(p, Deliveries(reports))
    ensures Run(p, Deliveries(reports)).received == p.received + reports
    ensures reports != [] ==> AtRest(Run(p, Deliveries(reports)))
    decreases |reports|
  {
    if reports == [] {
      assert p.received + [] == p.received;
    } else {
      var q := DeliverOne(p, reports[0]);
      UndisturbedReportsArrive(q, reports[1..]);
      RunAppend(p, SendSteps(reports[0]) + [HostReads], Deliveries(reports[1..]));
      FirstAndRest(p.received, reports);
    }
  }

  lemma FirstAndRest(before: seq<Bytes>, reports: seq<Bytes>)
    requires reports != []
    ensures before + [reports[0]] + reports[1..] == before + reports
  {
  }

  lemma DeliverOne(p: Pipe, report: Bytes) returns (q: Pipe)
    requires Inv(p) && p.place == Idle && !p.busy && |report| <= |p.buffer|
    ensures PossibleRun(p, SendSteps(report) + [HostReads]) && q == Run(p, SendSteps(report) + [HostReads])
    ensures Inv(q) && AtRest(q) && q.received == p.received + [report] && |q.buffer| == |p.buffer|
  {
    UninterruptedSend(p, report);
    var sent := Run(p, SendSteps(report));
    OneStep(sent, HostReads);
    RunAppend(p, SendSteps(report), [HostReads]);
    q := Next(sent, HostReads);
    assert sent.buffer[..|report|] == report;
  }

  // A bus reset after any byte of an endpoint-1 copy tears the report: the host gets the
  // bytes copied before it and zeros after them, although the device's report is empty.
  lemma ResetUnderCopyTearsReport(p: Pipe, report: Bytes, cut: nat)
    requires Inv(p) && p.clears && !p.busy && Possible(p, Submit(report)) && 0 < cut < |report|
    ensures var steps := [Submit(report)] + [Poll] + Copies(cut) + [BusReset] + Copies(|report| - cut) + [Copy];
            PossibleRun(p, steps)
            && var q := Run(p, steps);
               q.tx == Ack && q.buffer[..q.txLen] == report[..cut] + Zeros(|report| - cut)
               && q.source == [report[0]] + Zeros(|report| - 1)
  {
    var a, b := Next(p, Submit(report)), Next(Next(p, Submit(report)), Poll);
    OneStep(p, Submit(report));
    OneStep(a, Poll);
    RunAppend(p, [Submit(report)], [Poll]);
    CopiesAdvance(b, cut);
    RunAppend(p, [Submit(report)] + [Poll], Copies(cut));
    var c := Run(b, Copies(cut));
    OneStep(c, BusReset);
    RunAppend(p, [Submit(report)] + [Poll] + Copies(cut), [BusReset]);
    FinishTorn(c, Next(c, BusReset), report, cut);
    RunAppend(p, [Submit(report)] + [Poll] + Copies(cut) + [BusReset], Copies(|report| - cut));
    RunAppend(p, [Submit(report)] + [Poll] + Copies(cut) + [BusReset] + Copies(|report| - cut), [Copy]);
  }

  lemma FinishTorn(c: Pipe, d: Pipe, report: Bytes, cut: nat)
    requires Inv(c) && c.clears && 0 < cut < |report| && c.place == Copying(cut)
    requires c.source == report && c.begun == Entry(report, |report|, Pending) && d == Next(c, BusReset)
    ensures Inv(d) && PossibleRun(d, Copies(|report| - cut))
    ensures var e := Run(d, Copies(|report| - cut));
            Possible(e, Copy) && PossibleRun(e, [Copy])
            && var q := Run(e, [Copy]);
               q.tx == Ack && q.buffer[..q.txLen] == report[..cut] + Zeros(|report| - cut)
               && q.source == [report[0]] + Zeros(|report| - 1)
  {
    StepKeepsInv(c, BusReset);
    ResetCuts(c, d, report, cut);
    CopiesToTheEnd(d, report, cut);
    ArmTorn(Run(d, Copies(|report| - cut)), report, cut);
  }

  lemma CopiesToTheEnd(d: Pipe, report: Bytes, cut: nat)
    requires Inv(d) && d.clears && cut < |report| == |d.source|
    requires d.place == Copying(cut) && d.begun == Entry(report, cut, Pending)
    ensures PossibleRun(d, Copies(|report| - cut))
    ensures var e := Run(d, Copies(|report| - cut));
            e.clears && e.source == d.source && e.place == Copying(|report|) && e.begun == d.begun
  {
    CopiesAdvance(d, |report| - cut);
  }

  lemma ResetCuts(c: Pipe, d: Pipe, report: Bytes, cut: nat)
    requires Inv(c) && c.clears && 0 < cut < |report| && c.place == Copying(cut)
    requires c.source == report && c.begun == Entry(report, |report|, Pending) && d == Next(c, BusReset)
    ensures d.clears && d.place == Copying(cut) && d.begun == Entry(report, cut, Pending)
    ensures d.source == [report[0]] + Zeros(|report| - 1)
  {
  }

  lemma ArmTorn(e: Pipe, report: Bytes, cut: nat)
    requires Inv(e) && e.clears && 0 < cut < |report| == |e.source|
    requires e.place == Copying(|report|) && e.begun == Entry(report, cut, Pending)
    ensures Possible(e, Copy) && PossibleRun(e, [Copy])
    ensures var q := Run(e, [Copy]);
            q.tx == Ack && q.source == e.source
            && q.buffer[..q.txLen] == report[..cut] + Zeros(|report| - cut)
  {
    OneStep(e, Copy);
    TornFrame(e.buffer, report, cut);
  }

  lemma TornFrame(buffer: Bytes, report: Bytes, cut: nat)
    requires 0 < cut < |report| <= |buffer|
    requires var f := Frame(true, Entry(report, cut, Pending));
             |f| == |report| && buffer[..|report|] == f[..|report|]
    ensures buffer[..|report|] == report[..cut] + Zeros(|report| - cut)
  {
  }

  // ---------------------------------------------------------------- halt requests

  ghost predicate Blocked(p: Pipe) {
    p.busy && p.tx != Ack
  }

  lemma BlockedStepExactly(p: Pipe, s: Step)
    requires Inv(p) && Possible(p, s)
    ensures Blocked(Next(p, s)) <==> (Halts(s) && p.busy) || (Blocked(p) && !s.BusReset?)
  {
  }

  // A halt request blocks the endpoint exactly when it is busy; an idle one is unharmed.
  lemma HaltRequestBlocksExactly(p: Pipe, s: Step)
    requires Inv(p) && Halts(s)
    ensures Blocked(Next(p, s)) <==> p.busy
  {
  }

  // Some halt request of the run strikes while the endpoint is armed, and no bus reset
  // follows it.
  ghost predicate CaughtSinceReset(p: Pipe, steps: seq<Step>)
    requires Inv(p) && PossibleRun(p, steps)
    decreases steps
  {
    steps != [] &&
    (StepKeepsInv(p, steps[0]);
     (Halts(steps[0]) && p.tx == Ack && BusReset !in steps[1..])
     || CaughtSinceReset(Next(p, steps[0]), steps[1..]))
  }

  // A run ends blocked exactly when one did, or it began blocked and no bus reset came.
  lemma {:induction false} BlockedExactly(p: Pipe, steps: seq<Step>)
    requires Inv(p) && PossibleRun(p, steps)
    ensures Blocked(Run(p, steps)) <==> CaughtSinceReset(p, steps) || (Blocked(p) && BusReset !in steps)
    decreases steps
  {
    if steps != [] {
      StepKeepsInv(p, steps[0]);
      BlockedStepExactly(p, steps[0]);
      BlockedExactly(Next(p, steps[0]), steps[1..]);
      assert BusReset in steps <==> steps[0] == BusReset || BusReset in steps[1..];
    }
  }

  // A halt request that catches a report in flight leaves the busy flag set for good: no
  // report is sent or received any more until a bus reset.
  lemma {:induction false} BlockedUntilReset(p: Pipe, steps: seq<Step>)
    requires Inv(p) && Blocked(p) && PossibleRun(p, steps) && BusReset !in steps
    ensures var q := Run(p, steps);
            Blocked(q) && q.log == p.log && q.received == p.received
    decreases steps
  {
    if steps != [] {
      StepKeepsInv(p, steps[0]);
      assert steps[0] in steps;
      BlockedUntilReset(Next(p, steps[0]), steps[1..]);
    }
  }
}
