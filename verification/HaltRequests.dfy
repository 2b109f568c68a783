/**
 Halt requests reach endpoints 1 and 2 through endpoint 0 (include/usb_handler.c): which
 half a SETUP changes, and that the change is the step the endpoint models take.
 */
module HaltRequests {
  import opened Wrappers
  import opened ControlTransfer
  import opened ControlTransferLaws
  import In = EndpointIn
  import Out = EndpointOut

  datatype Which = Ep1In | Ep1Out | Ep2In | Ep2Out

  function HalfOf(h: Halves, w: Which): Half {
    match w
    case Ep1In => h.ep1Tx
    case Ep1Out => h.ep1Rx
    case Ep2In => h.ep2Tx
    case Ep2Out => h.ep2Rx
  }

  // The endpoint address in wIndex: bit 7 is the direction.
  function AddressOf(w: Which): bv8 {
    match w
    case Ep1In => 0x81
    case Ep1Out => 0x01
    case Ep2In => 0x82
    case Ep2Out => 0x02
  }

  // A clearing request names the half in the low index byte only; a setting request must
  // also have feature selector 0 and a zero high byte.
  predicate ClearsHalf(q: Setup, w: Which) {
    q.Standard() && q.request == CLEAR_FEATURE && q.Recipient() == RECIPIENT_ENDPOINT && q.indexL == AddressOf(w)
  }

  predicate SetsHalf(q: Setup, w: Which) {
    && q.Standard() && q.request == SET_FEATURE && q.Recipient() == RECIPIENT_ENDPOINT
    && q.indexL == AddressOf(w) && q.indexH == 0 && q.valueL == 0 && q.valueH == 0
  }

  // A SETUP changes a half exactly as these say and leaves every other half alone.
  lemma SetupChangesHalfExactly(rom: Rom, s: Engine, q: Setup, rxLen: nat, w: Which)
    requires rom.Wf() && s.Wf()
    ensures var before, after := HalfOf(s.halves, w), HalfOf(OnSetup(rom, s, q, rxLen).halves, w);
            after ==
            if rxLen == SETUP_SIZE && ClearsHalf(q, w) then Half(if w.Ep1In? || w.Ep2In? then Nak else Ack, false)
            else if rxLen == SETUP_SIZE && SetsHalf(q, w) then Half(Stall, false)
            else before
  {
    if rxLen == SETUP_SIZE && q.Standard() && q.request == CLEAR_FEATURE {
      ClearChangesHalf(rom, s, q, w);
    } else if rxLen == SETUP_SIZE && q.Standard() && q.request == SET_FEATURE {
      SetChangesHalf(rom, s, q, w);
    } else {
      OtherSetupsKeepHalves(rom, s, q, rxLen);
    }
  }

  lemma ClearChangesHalf(rom: Rom, s: Engine, q: Setup, w: Which)
    requires rom.Wf() && s.Wf() && q.Standard() && q.request == CLEAR_FEATURE
    ensures HalfOf(OnSetup(rom, s, q, SETUP_SIZE).halves, w) ==
      if ClearsHalf(q, w) then Half(if w.Ep1In? || w.Ep2In? then Nak else Ack, false) else HalfOf(s.halves, w)
  {
    var r := s.(setupLen := q.Length(), request := q.request);
    FeatureChangesHalf(r, q, ClearFeatureSupported(rom, q), Nak, Ack, w);
    assert OnSetup(rom, s, q, SETUP_SIZE) == OnFeature(r, q, ClearFeatureSupported(rom, q), Nak, Ack);
  }

  lemma SetChangesHalf(rom: Rom, s: Engine, q: Setup, w: Which)
    requires rom.Wf() && s.Wf() && q.Standard() && q.request == SET_FEATURE
    ensures HalfOf(OnSetup(rom, s, q, SETUP_SIZE).halves, w) ==
      if SetsHalf(q, w) then Half(Stall, false) else HalfOf(s.halves, w)
  {
    var r := s.(setupLen := q.Length(), request := q.request);
    FeatureChangesHalf(r, q, SetFeatureSupported(rom, q), Stall, Stall, w);
    assert OnSetup(rom, s, q, SETUP_SIZE) == OnFeature(r, q, SetFeatureSupported(rom, q), Stall, Stall);
  }

  lemma FeatureChangesHalf(s: Engine, q: Setup, supported: bool, tx: Response, rx: Response, w: Which)
    requires s.Wf()
    ensures HalfOf(OnFeature(s, q, supported, tx, rx).halves, w) ==
      if supported && q.Recipient() == RECIPIENT_ENDPOINT && q.indexL == AddressOf(w)
      then Half(if w.Ep1In? || w.Ep2In? then tx else rx, false)
      else HalfOf(s.halves, w)
  {
  }

  lemma OtherSetupsKeepHalves(rom: Rom, s: Engine, q: Setup, rxLen: nat)
    requires rom.Wf() && s.Wf()
    requires rxLen != SETUP_SIZE || !q.Standard() || (q.request != CLEAR_FEATURE && q.request != SET_FEATURE)
    ensures OnSetup(rom, s, q, rxLen).halves == s.halves
  {
    if q.request == GET_DESCRIPTOR {
      GetDescriptorKeepsDevice(rom, s.(setupLen := q.Length(), request := q.request), q);
    }
  }

  // Nor does an IN or OUT on endpoint 0.
  lemma OtherStepsKeepHalves(rom: Rom, s: Engine, e: Event)
    requires rom.Wf() && s.Wf() && (e == InDone || e == OutDone)
    ensures Step(rom, s, e).halves == s.halves
  {
  }

  // ---------------------------------------------------------------- whole runs

  predicate Touches(e: Event, w: Which) {
    match e
    case SetupToken(q, rxLen) => rxLen == SETUP_SIZE && (ClearsHalf(q, w) || SetsHalf(q, w))
    case BusReset => true
    case Elsewhere(_) => true
    case _ => false
  }

  // What an event that touches a half makes of it.
  function Made(e: Event, w: Which): Half
    requires Touches(e, w)
  {
    match e
    case SetupToken(q, _) =>
      Half(if SetsHalf(q, w) then Stall else if w.Ep1In? || w.Ep2In? then Nak else Ack, false)
    case BusReset => HalfOf(OPEN_HALVES, w)
    case Elsewhere(h) => HalfOf(h, w)
  }

  lemma StepTouchesExactly(rom: Rom, s: Session, e: Event, w: Which)
    requires rom.Wf() && s.engine.Wf()
    ensures HalfOf(Next(rom, s, e).engine.halves, w) ==
      if Touches(e, w) then Made(e, w) else HalfOf(s.engine.halves, w)
  {
    match e
    case SetupToken(q, rxLen) => SetupChangesHalfExactly(rom, s.engine, q, rxLen, w);
    case InDone => OtherStepsKeepHalves(rom, s.engine, e);
    case OutDone => OtherStepsKeepHalves(rom, s.engine, e);
    case BusReset =>
    case Elsewhere(_) =>
  }

  lemma {:induction false} UntouchedHalfStays(rom: Rom, s: Session, events: seq<Event>, w: Which)
    requires rom.Wf() && s.engine.Wf() && forall e :: e in events ==> !Touches(e, w)
    ensures HalfOf(Run(rom, s, events).engine.halves, w) == HalfOf(s.engine.halves, w)
    decreases events
  {
    if events != [] {
      assert events[0] in events;
      StepTouchesExactly(rom, s, events[0], w);
      UntouchedHalfStays(rom, Next(rom, s, events[0]), events[1..], w);
    }
  }

  // Over every run the answer and toggle of a direction are what the last event that
  // touches it made them, whatever came before that event or after it.
  lemma {:induction false} LastTouchDecides(rom: Rom, s: Session, events: seq<Event>, w: Which, k: nat)
    requires rom.Wf() && s.engine.Wf() && k < |events| && Touches(events[k], w)
    requires forall e :: e in events[k + 1..] ==> !Touches(e, w)
    ensures HalfOf(Run(rom, s, events).engine.halves, w) == Made(events[k], w)
    decreases events
  {
    var next := Next(rom, s, events[0]);
    if k == 0 {
      StepTouchesExactly(rom, s, events[0], w);
      UntouchedHalfStays(rom, next, events[1..], w);
    } else {
      assert events[1..][k..] == events[k + 1..];
      LastTouchDecides(rom, next, events[1..], w, k - 1);
    }
  }

  // ---------------------------------------------------------------- the endpoints' own models

  // For an IN half the change is the model's ClearHalt or SetHalt.
  lemma InHalfTakesItsStep(rom: Rom, s: Engine, q: Setup, w: Which, p: In.Pipe)
    requires rom.Wf() && s.Wf() && In.Inv(p) && (w.Ep1In? || w.Ep2In?)
    requires HalfOf(s.halves, w).response == p.tx
    ensures var after := HalfOf(OnSetup(rom, s, q, SETUP_SIZE).halves, w).response;
            after == (if ClearsHalf(q, w) then In.Next(p, In.ClearHalt).tx
                      else if SetsHalf(q, w) then In.Next(p, In.SetHalt).tx
                      else p.tx)
  {
    SetupChangesHalfExactly(rom, s, q, SETUP_SIZE, w);
  }

  // For endpoint 2 OUT it is the model's Reenable or Halt.
  lemma OutHalfTakesItsStep(rom: Rom, s: Engine, q: Setup, c: Out.Channel)
    requires rom.Wf() && s.Wf() && Out.Wf(c) && s.halves.ep2Rx.response == c.rx
    ensures var after := OnSetup(rom, s, q, SETUP_SIZE).halves.ep2Rx.response;
            after == (if ClearsHalf(q, Ep2Out) then Out.Next(c, Out.Reenable).rx
                      else if SetsHalf(q, Ep2Out) then Out.Next(c, Out.Halt).rx
                      else c.rx)
  {
    SetupChangesHalfExactly(rom, s, q, SETUP_SIZE, Ep2Out);
  }

  // A bus reset is a bus reset for all of them.
  lemma ResetReachesEveryHalf(rom: Rom, s: Engine, p: In.Pipe, c: Out.Channel)
    requires rom.Wf() && s.Wf() && In.Inv(p) && Out.Wf(c)
    ensures var h := Step(rom, s, BusReset).halves;
            h.ep1Tx.response == h.ep2Tx.response == In.Next(p, In.BusReset).tx
            && h.ep1Rx.response == h.ep2Rx.response == Out.Next(c, Out.Reenable).rx
  {
  }
}
