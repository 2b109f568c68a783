/**
 More laws of include/input_actions.c: what a multi-step trigger does to the report, how
 long a held key stays in it, and when the consumer report empties again.
 */
module ActionLaws {
  import opened Wrappers
  import opened Keyboard
  import opened KeyboardLaws
  import opened Actions
  import opened HeldKeys

  // ---------------------------------------------------------------- multi-step triggers

  // The steps that name a key, each deleted in turn; nothing is ever added.
  function DeleteSteps(k: Report, b: Binding, i: nat, n: nat): (r: Report)
    requires |k| == REPORT_SIZE && b.Wf() && i <= n <= MAX_STEPS
    ensures |r| == REPORT_SIZE
    decreases n - i
  {
    if i == n then k
    else if b.usage[i] == 0 then DeleteSteps(k, b, i + 1, n)
    else DeleteSteps(Delete(k, b.modifier[i], b.usage[i]), b, i + 1, n)
  }

  ghost predicate StruckBetween(strikes: Strikes, lo: nat, hi: nat) {
    exists n :: lo <= n < hi && strikes(n)
  }

  lemma {:induction false} BlankStaysBlank(b: Binding, i: nat, n: nat)
    requires b.Wf() && i <= n <= MAX_STEPS
    ensures DeleteSteps(Blank(KEYBOARD_ID), b, i, n) == Blank(KEYBOARD_ID)
    decreases n - i
  {
    if i < n {
      assert Delete(Blank(KEYBOARD_ID), b.modifier[i], b.usage[i]) == Blank(KEYBOARD_ID);
      BlankStaysBlank(b, i + 1, n);
    }
  }

  lemma TapExactly(strikes: Strikes, p: Port, mod: bv8, code: bv8)
    requires p.Wf() && code != 0
    ensures var q := Tap(strikes, p, mod, code);
            p.waits < q.waits <= p.waits + 2
            && q.kbd == if StruckBetween(strikes, p.waits, q.waits) then Blank(KEYBOARD_ID)
                        else Delete(p.kbd, mod, code)
  {
    TapIsDelete(p.kbd, mod, code);
    var m, q := Press(strikes, p, mod, code), Tap(strikes, p, mod, code);
    assert q.waits == m.waits + 1;
    assert m.waits == p.waits || m.waits == p.waits + 1;
    assert Delete(Blank(KEYBOARD_ID), mod, code) == Blank(KEYBOARD_ID);
    StruckInTwo(strikes, p.waits, m.waits);
  }

  lemma StruckInTwo(strikes: Strikes, lo: nat, mid: nat)
    requires mid == lo || mid == lo + 1
    ensures StruckBetween(strikes, lo, mid + 1) <==> strikes(mid) || strikes(lo)
  {
    if strikes(mid) || strikes(lo) {
      assert strikes(if strikes(mid) then mid else lo);
    }
  }

  // Running a whole keyboard sequence removes exactly the codes and modifiers of its
  // steps that name a key, unless a bus reset strikes on the way and empties the report.
  lemma {:induction false} SequenceIsDeletion(strikes: Strikes, p: Port, b: Binding, i: nat, n: nat)
    requires p.Wf() && b.Wf() && i <= n <= MAX_STEPS
    ensures var q := TapSteps(strikes, p, b, i, n);
            p.waits <= q.waits
            && q.kbd == if StruckBetween(strikes, p.waits, q.waits) then Blank(KEYBOARD_ID)
                        else DeleteSteps(p.kbd, b, i, n)
    decreases n - i
  {
    if i < n {
      var t := Tap(strikes, p, b.modifier[i], b.usage[i]);
      var q := TapSteps(strikes, p, b, i, n);
      SequenceIsDeletion(strikes, t, b, i + 1, n);
      if b.usage[i] != 0 {
        TapExactly(strikes, p, b.modifier[i], b.usage[i]);
        BlankStaysBlank(b, i + 1, n);
        assert StruckBetween(strikes, p.waits, q.waits) <==>
          StruckBetween(strikes, p.waits, t.waits) || StruckBetween(strikes, t.waits, q.waits);
      }
    }
  }

  // Some step that names a key has one of the bits among its modifiers.
  ghost predicate SomeStepHas(b: Binding, i: nat, n: nat, bits: bv8)
    requires b.Wf() && i <= n <= MAX_STEPS
  {
    exists s :: i <= s < n && b.usage[s] != 0 && b.modifier[s] & bits != 0
  }

  // Some step that names a key has all of them.
  ghost predicate SomeStepHasAll(b: Binding, i: nat, n: nat, bits: bv8)
    requires b.Wf() && i <= n <= MAX_STEPS
  {
    exists s :: i <= s < n && b.usage[s] != 0 && b.modifier[s] & bits == bits
  }

  ghost predicate SomeStepNames(b: Binding, i: nat, n: nat, code: bv8)
    requires b.Wf() && i <= n <= MAX_STEPS
  {
    exists s :: i <= s < n && b.usage[s] == code
  }

  // What masking does to some bits.
  ghost predicate MasksBits(before: bv8, after: bv8, mod: bv8, bits: bv8) {
    && (mod & bits == 0 ==> after & bits == before & bits)
    && (before & bits == 0 ==> after & bits == 0)
    && (mod & bits == bits ==> after & bits == 0)
  }

  lemma MaskAside(m: bv8, mod: bv8, bits: bv8)
    ensures MasksBits(m, m & !mod, mod, bits)
  {
  }

  lemma DeleteMask(k: Report, mod: bv8, code: bv8)
    requires |k| == REPORT_SIZE
    ensures Delete(k, mod, code)[1] == k[1] & !mod
  {
  }

  lemma DeleteMasks(k: Report, mod: bv8, code: bv8, bits: bv8)
    requires |k| == REPORT_SIZE
    ensures MasksBits(k[1], Delete(k, mod, code)[1], mod, bits)
  {
    DeleteMask(k, mod, code);
    MaskAside(k[1], mod, bits);
  }

  // Bits no step has stay as they were.
  lemma {:induction false} StepsKeepBits(k: Report, b: Binding, i: nat, n: nat, bits: bv8)
    requires |k| == REPORT_SIZE && b.Wf() && i <= n <= MAX_STEPS
    requires !SomeStepHas(b, i, n, bits) || k[1] & bits == 0
    ensures DeleteSteps(k, b, i, n)[1] & bits == k[1] & bits
    decreases n - i
  {
    if i < n {
      var d := if b.usage[i] == 0 then k else Delete(k, b.modifier[i], b.usage[i]);
      DeleteMasks(k, b.modifier[i], b.usage[i], bits);
      StepsKeepBits(d, b, i + 1, n, bits);
    }
  }

  // Bits that one step has are gone.
  lemma {:induction false} StepsClearBits(k: Report, b: Binding, i: nat, n: nat, bits: bv8)
    requires |k| == REPORT_SIZE && b.Wf() && i <= n <= MAX_STEPS && SomeStepHasAll(b, i, n, bits)
    ensures DeleteSteps(k, b, i, n)[1] & bits == 0
    decreases n - i
  {
    if b.usage[i] != 0 && b.modifier[i] & bits == bits {
      FirstStepClears(k, b, i, n, bits);
    } else {
      StepsClearBits(if b.usage[i] == 0 then k else Delete(k, b.modifier[i], b.usage[i]), b, i + 1, n, bits);
    }
  }

  lemma FirstStepClears(k: Report, b: Binding, i: nat, n: nat, bits: bv8)
    requires |k| == REPORT_SIZE && b.Wf() && i < n <= MAX_STEPS
    requires b.usage[i] != 0 && b.modifier[i] & bits == bits
    ensures DeleteSteps(k, b, i, n)[1] & bits == 0
  {
    DeleteMasks(k, b.modifier[i], b.usage[i], bits);
    StepsKeepBits(Delete(k, b.modifier[i], b.usage[i]), b, i + 1, n, bits);
  }

  lemma {:induction false} StepsDeleteExactly(k: Report, b: Binding, i: nat, n: nat, j: nat)
    requires |k| == REPORT_SIZE && b.Wf() && i <= n <= MAX_STEPS && j < REPORT_SIZE && j != 1
    ensures DeleteSteps(k, b, i, n)[j] ==
      if j >= FIRST_SLOT && SomeStepNames(b, i, n, k[j]) then 0 else k[j]
    decreases n - i
  {
    if i < n {
      NamedFirstOrLater(b, i, n, k[j]);
      if b.usage[i] == 0 {
        StepsDeleteExactly(k, b, i + 1, n, j);
      } else {
        StepsDeleteExactly(Delete(k, b.modifier[i], b.usage[i]), b, i + 1, n, j);
      }
    }
  }

  lemma NamedFirstOrLater(b: Binding, i: nat, n: nat, code: bv8)
    requires b.Wf() && i < n <= MAX_STEPS
    ensures SomeStepNames(b, i, n, code) <==> b.usage[i] == code || SomeStepNames(b, i + 1, n, code)
  {
  }

  // So an unstruck sequence empties exactly the slots whose code some step names and
  // changes no byte but the slots and the modifiers.
  lemma SequenceClearsExactly(strikes: Strikes, p: Port, b: Binding, i: nat, n: nat, j: nat)
    requires p.Wf() && b.Wf() && i <= n <= MAX_STEPS && FIRST_SLOT <= j < REPORT_SIZE
    requires !StruckBetween(strikes, p.waits, TapSteps(strikes, p, b, i, n).waits)
    ensures var k := TapSteps(strikes, p, b, i, n).kbd;
            && k[j] == (if SomeStepNames(b, i, n, p.kbd[j]) then 0 else p.kbd[j])
            && k[0] == p.kbd[0] && k[2] == p.kbd[2]
  {
    SequenceIsDeletion(strikes, p, b, i, n);
    StepsDeleteExactly(p.kbd, b, i, n, 0);
    StepsDeleteExactly(p.kbd, b, i, n, 2);
    StepsDeleteExactly(p.kbd, b, i, n, j);
  }

  // It keeps the modifier bits no step has and clears those a step has. For a single bit
  // one of the two always applies.
  lemma SequenceClearsModifiers(strikes: Strikes, p: Port, b: Binding, i: nat, n: nat, bits: bv8)
    requires p.Wf() && b.Wf() && i <= n <= MAX_STEPS
    requires !StruckBetween(strikes, p.waits, TapSteps(strikes, p, b, i, n).waits)
    ensures StepsClear(p.kbd, TapSteps(strikes, p, b, i, n).kbd, b, i, n, bits)
  {
    SequenceIsDeletion(strikes, p, b, i, n);
    StepsClearExactly(p.kbd, b, i, n, bits);
  }

  ghost predicate StepsClear(before: Report, after: Report, b: Binding, i: nat, n: nat, bits: bv8)
    requires |before| == |after| == REPORT_SIZE && b.Wf() && i <= n <= MAX_STEPS
  {
    && (!SomeStepHas(b, i, n, bits) ==> after[1] & bits == before[1] & bits)
    && (SomeStepHasAll(b, i, n, bits) ==> after[1] & bits == 0)
  }

  lemma StepsClearExactly(k: Report, b: Binding, i: nat, n: nat, bits: bv8)
    requires |k| == REPORT_SIZE && b.Wf() && i <= n <= MAX_STEPS
    ensures StepsClear(k, DeleteSteps(k, b, i, n), b, i, n, bits)
  {
    if !SomeStepHas(b, i, n, bits) {
      StepsKeepBits(k, b, i, n, bits);
    }
    if SomeStepHasAll(b, i, n, bits) {
      StepsClearBits(k, b, i, n, bits);
    }
  }

  // ---------------------------------------------------------------- held keys stay

  // The event deletes the code from the report: the control it concerns is bound to it,
  // or the event clears everything.
  ghost predicate Deletes(w: World, e: Event, code: bv8)
    requires w.device.Wf() && Legal(e)
  {
    match e
    case Pressed(c) => c < CONTROL_COUNT && TapsCode(w.device.table[c], code)
    case Released(c) =>
      c < CONTROL_COUNT && w.device.table[c].Holds() && w.device.table[c].usage[0] == code
    case Triggered(c) => c < CONTROL_COUNT && TapsCode(w.device.table[c], code)
    case Packet(p) => AcceptsBinding(p)
    case Clear => true
    case Reset => true
    case Wait => false
  }

  ghost predicate TapsCode(b: Binding, code: bv8)
    requires b.Wf()
  {
    b.kind == KEYBOARD && SomeStepNames(b, 0, Steps(b), code)
  }

  ghost predicate NeverDeleted(strikes: Strikes, w: World, events: seq<Event>, code: bv8)
    requires w.device.Wf() && forall e :: e in events ==> Legal(e)
    decreases events
  {
    events != [] ==>
      && !Deletes(w, events[0], code)
      && NeverDeleted(strikes, Step(strikes, w, events[0]), events[1..], code)
  }

  lemma InsertKeepsCode(k: Report, mod: bv8, other: bv8, code: bv8)
    requires |k| == REPORT_SIZE && InSlots(k, code) && code != 0 && other != 0
    ensures InSlots(Insert(k, mod, other), code)
  {
    var s := InsertInserts(k, mod, other);
    var j :| FIRST_SLOT <= j < REPORT_SIZE && k[j] == code;
    assert Insert(k, mod, other)[j] == code;
  }

  lemma DeleteKeepsOther(k: Report, mod: bv8, other: bv8, code: bv8)
    requires |k| == REPORT_SIZE && InSlots(k, code) && code != other
    ensures InSlots(Delete(k, mod, other), code)
  {
    var j :| FIRST_SLOT <= j < REPORT_SIZE && k[j] == code;
    assert Delete(k, mod, other)[j] == code;
  }

  lemma StepsKeepCode(strikes: Strikes, p: Port, b: Binding, i: nat, n: nat, code: bv8)
    requires p.Wf() && b.Wf() && i <= n <= MAX_STEPS
    requires !StruckBetween(strikes, p.waits, TapSteps(strikes, p, b, i, n).waits)
    requires InSlots(p.kbd, code) && !SomeStepNames(b, i, n, code)
    ensures InSlots(TapSteps(strikes, p, b, i, n).kbd, code)
  {
    var j :| FIRST_SLOT <= j < REPORT_SIZE && p.kbd[j] == code;
    SequenceClearsExactly(strikes, p, b, i, n, j);
    assert TapSteps(strikes, p, b, i, n).kbd[j] == code;
  }

  // A consumer tap leaves the keyboard report alone unless a reset strikes.
  lemma TapUsageKeepsKeyboard(strikes: Strikes, p: Port, key: bv16)
    requires p.Wf()
    ensures var q := TapUsage(strikes, p, key);
            p.waits < q.waits && (!StruckBetween(strikes, p.waits, q.waits) ==> q.kbd == p.kbd)
  {
    var m := PressUsage(strikes, p, key);
    assert m.waits == p.waits || m.waits == p.waits + 1;
    StruckInTwo(strikes, p.waits, m.waits);
  }

  lemma TriggerWaits(strikes: Strikes, p: Port, b: Binding)
    requires p.Wf() && b.Wf()
    ensures p.waits <= TriggerPort(strikes, p, b).waits
  {
    if b.kind == KEYBOARD {
      SequenceIsDeletion(strikes, p, b, 0, Steps(b));
    } else if b.kind == CONSUMER {
      TapUsageKeepsKeyboard(strikes, p, ConsumerUsage(b));
    }
  }

  lemma TriggerKeepsCode(strikes: Strikes, p: Port, b: Binding, code: bv8)
    requires p.Wf() && b.Wf() && InSlots(p.kbd, code) && !TapsCode(b, code)
    requires !StruckBetween(strikes, p.waits, TriggerPort(strikes, p, b).waits)
    ensures InSlots(TriggerPort(strikes, p, b).kbd, code)
  {
    if b.kind == KEYBOARD {
      StepsKeepCode(strikes, p, b, 0, Steps(b), code);
    } else if b.kind == CONSUMER {
      TapUsageKeepsKeyboard(strikes, p, ConsumerUsage(b));
    }
  }

  // Waits only add up.
  lemma EventWaits(strikes: Strikes, w: World, e: Event)
    requires w.device.Wf() && Legal(e)
    ensures w.device.port.waits <= Step(strikes, w, e).device.port.waits
  {
    match e
    case Pressed(c) =>
      if c < CONTROL_COUNT {
        TriggerWaits(strikes, w.device.port, w.device.table[c]);
      }
    case Triggered(c) =>
      if c < CONTROL_COUNT {
        TriggerWaits(strikes, w.device.port, w.device.table[c]);
      }
    case Released(_) =>
    case Packet(_) =>
    case Clear =>
    case Reset =>
    case Wait =>
  }

  lemma {:induction false} RunWaits(strikes: Strikes, w: World, events: seq<Event>)
    requires w.device.Wf() && forall e :: e in events ==> Legal(e)
    ensures w.device.port.waits <= Run(strikes, w, events).device.port.waits
    decreases events
  {
    if events != [] {
      EventWaits(strikes, w, events[0]);
      RunWaits(strikes, Step(strikes, w, events[0]), events[1..]);
    }
  }

  lemma EventKeepsCode(strikes: Strikes, w: World, e: Event, code: bv8)
    requires w.device.Wf() && Legal(e) && code != 0
    requires !StruckBetween(strikes, w.device.port.waits, Step(strikes, w, e).device.port.waits)
    requires InSlots(w.device.port.kbd, code) && !Deletes(w, e, code)
    ensures InSlots(Step(strikes, w, e).device.port.kbd, code)
  {
    var p, table := w.device.port, w.device.table;
    match e
    case Pressed(c) =>
      if c < CONTROL_COUNT {
        if table[c].Holds() {
          if table[c].usage[0] != 0 {
            InsertKeepsCode(p.kbd, table[c].modifier[0], table[c].usage[0], code);
          }
        } else if table[c].kind != APP_ONLY {
          TriggerKeepsCode(strikes, p, table[c], code);
        }
      }
    case Released(c) =>
      if c < CONTROL_COUNT && table[c].Holds() && table[c].usage[0] != 0 {
        DeleteKeepsOther(p.kbd, table[c].modifier[0], table[c].usage[0], code);
      }
    case Triggered(c) =>
      if c < CONTROL_COUNT {
        TriggerKeepsCode(strikes, p, table[c], code);
      }
    case Packet(bytes) =>
    case Clear =>
    case Reset =>
    case Wait =>
  }

  // A key once in the report stays there, and in the host's copy, until an event deletes
  // that very code or clears everything, or a reset strikes in one of the run's waits.
  lemma {:induction false} HeldKeyStays(strikes: Strikes, w: World, events: seq<Event>, code: bv8)
    requires Inv(w) && (forall e :: e in events ==> Legal(e)) && code != 0
    requires !StruckBetween(strikes, w.device.port.waits, Run(strikes, w, events).device.port.waits)
    requires InSlots(w.device.port.kbd, code) && NeverDeleted(strikes, w, events, code)
    ensures var p := Run(strikes, w, events).device.port;
            InSlots(p.kbd, code) && InSlots(HostReport(p.sent, KEYBOARD_ID), code)
    decreases events
  {
    if events == [] {
      var p := w.device.port;
      var j :| FIRST_SLOT <= j < REPORT_SIZE && p.kbd[j] == code;
      assert HostReport(p.sent, KEYBOARD_ID)[j] == code;
    } else {
      var next := Step(strikes, w, events[0]);
      EventWaits(strikes, w, events[0]);
      RunWaits(strikes, next, events[1..]);
      EventKeepsCode(strikes, w, events[0], code);
      StepKeepsInv(strikes, w, events[0]);
      HeldKeyStays(strikes, next, events[1..], code);
    }
  }

  // The report of one held key.
  function Held(mod: bv8, code: bv8): Report {
    [KEYBOARD_ID, mod, 0, code, 0, 0, 0, 0, 0]
  }

  // From any reachable state: once a packet binds a control as a hold, pressing it gives a
  // report, here and at the host, of exactly that modifier and key, or an empty one if a
  // reset strikes in the press's wait; and releasing it gives an empty one in any case.
  lemma BoundHoldRoundTrip(strikes: Strikes, w: World, packet: seq<bv8>, c: nat)
    requires Inv(w) && |packet| == PACKET_SIZE && AcceptsBinding(packet)
    requires packet[4] as nat == c && packet[5] == HOLD_KEYBOARD && packet[6] != 0 && packet[8] != 0
    ensures var bound := Step(strikes, w, Packet(packet));
            var held := Step(strikes, bound, Pressed(c));
            var freed := Step(strikes, held, Released(c));
            var struck := StruckBetween(strikes, bound.device.port.waits, held.device.port.waits);
            held.device.port.kbd == (if struck then Blank(KEYBOARD_ID) else Held(packet[7], packet[8]))
            && HostReport(held.device.port.sent, KEYBOARD_ID) == held.device.port.kbd
            && freed.device.port.kbd == Blank(KEYBOARD_ID)
            && HostReport(freed.device.port.sent, KEYBOARD_ID) == Blank(KEYBOARD_ID)
  {
    var a := Step(strikes, w, Packet(packet));
    PacketBlanksAndBinds(strikes, w, packet);
    var q := Press(strikes, a.device.port, packet[7], packet[8]);
    PressFromBlank(strikes, a.device.port, packet[7], packet[8]);
    StruckInTwo(strikes, a.device.port.waits, a.device.port.waits);
    ReleaseToBlank(strikes, q, packet[7], packet[8]);
  }

  lemma PacketBlanksAndBinds(strikes: Strikes, w: World, packet: seq<bv8>)
    requires Inv(w) && |packet| == PACKET_SIZE && AcceptsBinding(packet)
    ensures var d := Step(strikes, w, Packet(packet)).device;
            d.port.kbd == Blank(KEYBOARD_ID) && d.table[packet[4] as nat] == PacketBinding(packet)
  {
  }

  lemma InsertIntoBlank(mod: bv8, code: bv8)
    requires code != 0
    ensures var k := Blank(KEYBOARD_ID);
            HasRoomFor(Merge(k, mod), code) && Insert(k, mod, code) == Held(mod, code)
  {
    var k := Blank(KEYBOARD_ID);
    assert k[FIRST_SLOT] == 0;
    RoomDecides(k, mod, code);
    assert FindSlot(Merge(k, mod), 0, FIRST_SLOT) == FIRST_SLOT;
  }

  lemma PressFromBlank(strikes: Strikes, p: Port, mod: bv8, code: bv8)
    requires p.Wf() && p.kbd == Blank(KEYBOARD_ID) && code != 0
    ensures var q := Press(strikes, p, mod, code);
            q.kbd == (if strikes(p.waits) then Blank(KEYBOARD_ID) else Held(mod, code))
            && q.waits == p.waits + 1 && HostReport(q.sent, KEYBOARD_ID) == q.kbd
  {
    InsertIntoBlank(mod, code);
  }

  lemma ReleaseToBlank(strikes: Strikes, p: Port, mod: bv8, code: bv8)
    requires p.Wf() && code != 0 && (p.kbd == Blank(KEYBOARD_ID) || p.kbd == Held(mod, code))
    ensures var q := Release(strikes, p, mod, code);
            q.kbd == Blank(KEYBOARD_ID) && HostReport(q.sent, KEYBOARD_ID) == q.kbd
  {
    assert mod & !mod == 0;
    assert Delete(p.kbd, mod, code) == Blank(KEYBOARD_ID);
  }

  // ---------------------------------------------------------------- consumer report

  // No consumer binding of the table carries a usage above 0xFF.
  ghost predicate Narrow(table: seq<Binding>)
    requires TableWf(table)
  {
    forall c :: 0 <= c < CONTROL_COUNT && table[c].kind == CONSUMER ==> ConsumerUsage(table[c]) <= 0xFF
  }

  ghost predicate NarrowEvent(e: Event)
    requires Legal(e)
  {
    e.Packet? && AcceptsBinding(e.bytes) && e.bytes[5] == CONSUMER ==>
      ConsumerUsage(PacketBinding(e.bytes)) <= 0xFF
  }

  lemma {:induction false} StepsKeepConsumer(strikes: Strikes, p: Port, b: Binding, i: nat, n: nat)
    requires p.Wf() && b.Wf() && i <= n <= MAX_STEPS && p.con == Blank(CONSUMER_ID)
    ensures TapSteps(strikes, p, b, i, n).con == Blank(CONSUMER_ID)
    decreases n - i
  {
    if i < n {
      StepsKeepConsumer(strikes, Tap(strikes, p, b.modifier[i], b.usage[i]), b, i + 1, n);
    }
  }

  lemma TriggerKeepsConsumer(strikes: Strikes, p: Port, b: Binding)
    requires p.Wf() && b.Wf() && p.con == Blank(CONSUMER_ID)
    requires b.kind == CONSUMER ==> ConsumerUsage(b) <= 0xFF
    ensures TriggerPort(strikes, p, b).con == Blank(CONSUMER_ID)
  {
    if b.kind == KEYBOARD {
      StepsKeepConsumer(strikes, p, b, 0, Steps(b));
    } else if b.kind == CONSUMER && b.count != 0 {
      TapUsageReports(strikes, p, ConsumerUsage(b));
      TapKeepsOnlyWide(p.con, ConsumerUsage(b));
    }
  }

  lemma EventKeepsConsumer(strikes: Strikes, w: World, e: Event)
    requires w.device.Wf() && Legal(e) && NarrowEvent(e)
    requires Narrow(w.device.table) && w.device.port.con == Blank(CONSUMER_ID)
    ensures Narrow(Step(strikes, w, e).device.table)
    ensures Step(strikes, w, e).device.port.con == Blank(CONSUMER_ID)
  {
    var p, table := w.device.port, w.device.table;
    match e
    case Pressed(c) =>
      if c < CONTROL_COUNT {
        TriggerKeepsConsumer(strikes, p, table[c]);
      }
    case Triggered(c) =>
      if c < CONTROL_COUNT {
        TriggerKeepsConsumer(strikes, p, table[c]);
      }
    case Released(c) =>
    case Packet(bytes) =>
    case Clear =>
    case Reset =>
    case Wait =>
  }

  // As long as no binding names a usage above 0xFF, the consumer report and the host's
  // copy are empty between events.
  lemma {:induction false} NarrowConsumerEmpties(strikes: Strikes, w: World, events: seq<Event>)
    requires Inv(w) && forall e :: e in events ==> Legal(e) && NarrowEvent(e)
    requires Narrow(w.device.table) && w.device.port.con == Blank(CONSUMER_ID)
    ensures var p := Run(strikes, w, events).device.port;
            p.con == Blank(CONSUMER_ID) && HostReport(p.sent, CONSUMER_ID) == Blank(CONSUMER_ID)
    decreases events
  {
    if events != [] {
      EventKeepsConsumer(strikes, w, events[0]);
      StepKeepsInv(strikes, w, events[0]);
      NarrowConsumerEmpties(strikes, Step(strikes, w, events[0]), events[1..]);
    }
  }

  ghost predicate Quiet(strikes: Strikes) {
    forall n :: !strikes(n)
  }

  // Otherwise it does not: tapping a control bound to usage 0x0183 once leaves the usage
  // pressed on the host although no control is down.
  lemma WideConsumerSticks(strikes: Strikes, packet: seq<bv8>)
    requires Quiet(strikes) && |packet| == PACKET_SIZE && AcceptsBinding(packet)
    requires packet[4] == 0 && packet[5] == CONSUMER && packet[6] == 1
    requires packet[7] == 0x01 && packet[8] == 0x83
    ensures var w := Step(strikes, Step(strikes, Step(strikes, START, Packet(packet)), Pressed(0)),
                          Released(0));
            w.down == {}
            && HostReport(w.device.port.sent, CONSUMER_ID) == [CONSUMER_ID, 0x83, 0x01, 0, 0, 0, 0, 0, 0]
  {
    var a := Step(strikes, START, Packet(packet));
    StartInv();
    StepKeepsInv(strikes, START, Packet(packet));
    assert a.device.table[0] == PacketBinding(packet);
    assert ConsumerUsage(a.device.table[0]) == 0x0183;
    WideTapSticks(strikes, a);
  }

  lemma WideTapSticks(strikes: Strikes, a: World)
    requires Quiet(strikes) && Inv(a) && a.down == {} && a.device.port.con == Blank(CONSUMER_ID)
    requires var b := a.device.table[0];
             b.kind == CONSUMER && b.count != 0 && ConsumerUsage(b) == 0x0183
    ensures var w := Step(strikes, Step(strikes, a, Pressed(0)), Released(0));
            w.down == {}
            && HostReport(w.device.port.sent, CONSUMER_ID) == [CONSUMER_ID, 0x83, 0x01, 0, 0, 0, 0, 0, 0]
  {
    var b := Step(strikes, a, Pressed(0));
    StepKeepsInv(strikes, a, Pressed(0));
    StepKeepsInv(strikes, b, Released(0));
    WideTapFromBlank(strikes, a.device.port);
  }

  lemma WideTapFromBlank(strikes: Strikes, p: Port)
    requires p.Wf() && p.con == Blank(CONSUMER_ID) && Quiet(strikes)
    ensures TapUsage(strikes, p, 0x0183).con == [CONSUMER_ID, 0x83, 0x01, 0, 0, 0, 0, 0, 0]
  {
    var c := Blank(CONSUMER_ID);
    assert FreePair(c, 1);
    WideTapContents(c, 0x0183);
    assert FindFreePair(c, 1) == 1;
    assert InsertUsage(c, 0x0183) == [CONSUMER_ID, 0x83, 0x01, 0, 0, 0, 0, 0, 0];
    assert HasRoomForUsage(c, 0x0183);
  }
}
