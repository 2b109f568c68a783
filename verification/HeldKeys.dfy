/**
 No stuck keys: over every run of presses, releases, triggers, binding packets,
 release-alls and bus resets, whatever the keyboard report holds belongs to a control
 that is down and bound as a hold, and the host agrees.
 */
module HeldKeys {
  import opened Wrappers
  import opened Keyboard
  import opened KeyboardLaws
  import opened Actions

  datatype Event =
    | Pressed(control: nat)
    | Released(control: nat)
    | Triggered(control: nat)
    | Packet(bytes: seq<bv8>)
    | Clear
    | Reset
    | Wait  // the main code waits for endpoint 2

  // The device together with the controls pressed and not yet released.
  datatype World = World(device: Device, down: set<nat>)

  const START := World(Device(POWER_ON, DEFAULT_TABLE), {})

  ghost predicate Legal(e: Event) {
    e.Packet? ==> |e.bytes| == PACKET_SIZE
  }

  function Step(strikes: Strikes, w: World, e: Event): (w': World)
    requires w.device.Wf() && Legal(e)
    ensures w'.device.Wf()
  {
    match e
    case Pressed(c) => World(PressControl(strikes, w.device, c), w.down + {c})
    case Released(c) => World(ReleaseControl(strikes, w.device, c), w.down - {c})
    case Triggered(c) => w.(device := TriggerControl(strikes, w.device, c))
    case Packet(p) => w.(device := ApplyPacket(strikes, w.device, p))
    case Clear => w.(device := w.device.(port := ReleaseAll(strikes, w.device.port)))
    case Reset => w.(device := w.device.(port := BusReset(w.device.port)))
    case Wait => w.(device := w.device.(port := AfterWait(strikes, w.device.port)))
  }

  function Run(strikes: Strikes, w: World, events: seq<Event>): (w': World)
    requires w.device.Wf() && forall e :: e in events ==> Legal(e)
    ensures w'.device.Wf()
    decreases events
  {
    if events == [] then w
    else Run(strikes, Step(strikes, w, events[0]), events[1..])
  }

  // ---------------------------------------------------------------- the invariant

  // Control c is down and its current binding holds a real key.
  ghost predicate Holding(table: seq<Binding>, down: set<nat>, c: nat)
    requires TableWf(table)
  {
    c in down && c < CONTROL_COUNT && table[c].Holds() && table[c].usage[0] != 0
  }

  ghost predicate CodeHeld(table: seq<Binding>, down: set<nat>, code: bv8)
    requires TableWf(table)
  {
    exists c: nat :: Holding(table, down, c) && table[c].usage[0] == code
  }

  ghost predicate ModifierHeld(table: seq<Binding>, down: set<nat>, bits: bv8)
    requires TableWf(table)
  {
    exists c: nat :: Holding(table, down, c) && table[c].modifier[0] & bits != 0
  }

  ghost predicate CodesHeld(k: Report, table: seq<Binding>, down: set<nat>)
    requires |k| == REPORT_SIZE && TableWf(table)
  {
    forall j :: FIRST_SLOT <= j < REPORT_SIZE && k[j] != 0 ==> CodeHeld(table, down, k[j])
  }

  // Stated for every mask, which includes each single bit.
  ghost predicate ModifiersHeld(m: bv8, table: seq<Binding>, down: set<nat>)
    requires TableWf(table)
  {
    forall bits: bv8 :: m & bits != 0 ==> ModifierHeld(table, down, bits)
  }

  // Every code and every modifier bit of the report is held by some control.
  ghost predicate AllHeld(k: Report, table: seq<Binding>, down: set<nat>)
    requires |k| == REPORT_SIZE && TableWf(table)
  {
    CodesHeld(k, table, down) && ModifiersHeld(k[1], table, down)
  }

  ghost predicate Inv(w: World) {
    && w.device.Wf()
    && Distinct(w.device.port.kbd)
    && AllHeld(w.device.port.kbd, w.device.table, w.down)
    && HostAgrees(w.device.port)
    && OnlyWide(w.device.port.con)
  }

  // ---------------------------------------------------------------- report steps

  lemma CodesMonotone(k: Report, table: seq<Binding>, down: set<nat>, more: set<nat>)
    requires |k| == REPORT_SIZE && TableWf(table)
    requires CodesHeld(k, table, down) && down <= more
    ensures CodesHeld(k, table, more)
  {
    forall j | FIRST_SLOT <= j < REPORT_SIZE && k[j] != 0
      ensures CodeHeld(table, more, k[j])
    {
      var c: nat :| Holding(table, down, c) && table[c].usage[0] == k[j];
      assert Holding(table, more, c);
    }
  }

  lemma ModifiersMonotone(m: bv8, table: seq<Binding>, down: set<nat>, more: set<nat>)
    requires TableWf(table)
    requires ModifiersHeld(m, table, down) && down <= more
    ensures ModifiersHeld(m, table, more)
  {
    forall bits: bv8 | m & bits != 0
      ensures ModifierHeld(table, more, bits)
    {
      assert ModifierHeld(table, down, bits);
      var c: nat :| Holding(table, down, c) && table[c].modifier[0] & bits != 0;
      assert Holding(table, more, c);
    }
  }

  lemma BlankHeld(table: seq<Binding>, down: set<nat>)
    requires TableWf(table)
    ensures AllHeld(Blank(KEYBOARD_ID), table, down) && Distinct(Blank(KEYBOARD_ID))
  {
  }

  // Inserting what a holding control is bound to.
  lemma InsertHeld(k: Report, table: seq<Binding>, down: set<nat>, c: nat)
    requires |k| == REPORT_SIZE && TableWf(table)
    requires AllHeld(k, table, down) && Holding(table, down, c)
    ensures AllHeld(Insert(k, table[c].modifier[0], table[c].usage[0]), table, down)
  {
    var mod, code := table[c].modifier[0], table[c].usage[0];
    var r := Insert(k, mod, code);
    var s := InsertInserts(k, mod, code);
    InsertedCodesHeld(k, r, table, down, c, s);
    MergedModifiersHeld(k[1], table, down, c);
  }

  lemma InsertedCodesHeld(k: Report, r: Report, table: seq<Binding>, down: set<nat>, c: nat, s: nat)
    requires |k| == REPORT_SIZE && TableWf(table)
    requires CodesHeld(k, table, down) && Holding(table, down, c)
    requires Inserted(k, r, table[c].modifier[0], table[c].usage[0], s)
    ensures CodesHeld(r, table, down)
  {
    forall j | FIRST_SLOT <= j < REPORT_SIZE && r[j] != 0
      ensures CodeHeld(table, down, r[j])
    {
      if j != s {
        assert r[j] == k[j];
      }
    }
  }

  lemma MergedModifiersHeld(m: bv8, table: seq<Binding>, down: set<nat>, c: nat)
    requires TableWf(table) && ModifiersHeld(m, table, down) && Holding(table, down, c)
    ensures ModifiersHeld(m | table[c].modifier[0], table, down)
  {
    forall bits: bv8 | (m | table[c].modifier[0]) & bits != 0
      ensures ModifierHeld(table, down, bits)
    {
      assert m & bits != 0 || table[c].modifier[0] & bits != 0;
      assert m & bits != 0 ==> ModifierHeld(table, down, bits);
    }
  }

  // Deleting anything leaves only what was held before.
  lemma DeleteHeld(k: Report, table: seq<Binding>, down: set<nat>, mod: bv8, code: bv8)
    requires |k| == REPORT_SIZE && TableWf(table)
    requires AllHeld(k, table, down)
    ensures AllHeld(Delete(k, mod, code), table, down)
  {
    var m := k[1];
    forall bits: bv8 | (m & !mod) & bits != 0
      ensures ModifierHeld(table, down, bits)
    {
      assert m & bits != 0;
    }
  }

  // Deleting what control c is bound to leaves only what the others hold.
  lemma DeleteOwn(k: Report, table: seq<Binding>, down: set<nat>, c: nat)
    requires |k| == REPORT_SIZE && TableWf(table)
    requires AllHeld(k, table, down) && c < CONTROL_COUNT
    ensures AllHeld(Delete(k, table[c].modifier[0], table[c].usage[0]), table, down - {c})
  {
    OwnCodesGone(k, table, down, c);
    OwnModifiersGone(k[1], table, down, c);
  }

  lemma OwnCodesGone(k: Report, table: seq<Binding>, down: set<nat>, c: nat)
    requires |k| == REPORT_SIZE && TableWf(table)
    requires CodesHeld(k, table, down) && c < CONTROL_COUNT
    ensures CodesHeld(Delete(k, table[c].modifier[0], table[c].usage[0]), table, down - {c})
  {
    var code := table[c].usage[0];
    forall j | FIRST_SLOT <= j < REPORT_SIZE && k[j] != code && k[j] != 0
      ensures CodeHeld(table, down - {c}, k[j])
    {
      var o: nat :| Holding(table, down, o) && table[o].usage[0] == k[j];
      assert Holding(table, down - {c}, o);
    }
  }

  lemma MaskedOverlap(m: bv8, mod: bv8, bits: bv8)
    requires (m & !mod) & bits != 0
    ensures m & (bits & !mod) != 0 && mod & (bits & !mod) == 0
  {
  }

  lemma OverlapWidens(a: bv8, bits: bv8, mod: bv8)
    requires a & (bits & !mod) != 0
    ensures a & bits != 0
  {
  }

  lemma OtherHolder(table: seq<Binding>, down: set<nat>, c: nat, mod: bv8, bits: bv8)
    requires TableWf(table) && c < CONTROL_COUNT && mod == table[c].modifier[0]
    requires ModifierHeld(table, down, bits & !mod)
    ensures ModifierHeld(table, down - {c}, bits)
  {
    var rest := bits & !mod;
    assert mod & rest == 0;
    var o: nat :| Holding(table, down, o) && table[o].modifier[0] & rest != 0;
    OverlapWidens(table[o].modifier[0], bits, mod);
    assert Holding(table, down - {c}, o);
  }

  lemma OwnModifiersGone(m: bv8, table: seq<Binding>, down: set<nat>, c: nat)
    requires TableWf(table) && ModifiersHeld(m, table, down) && c < CONTROL_COUNT
    ensures ModifiersHeld(m & !table[c].modifier[0], table, down - {c})
  {
    var mod := table[c].modifier[0];
    forall bits: bv8 | (m & !mod) & bits != 0
      ensures ModifierHeld(table, down - {c}, bits)
    {
      MaskedOverlap(m, mod, bits);
      OtherHolder(table, down, c, mod, bits);
    }
  }

  // A control that holds nothing can be dropped from the down set.
  lemma DropIdle(k: Report, table: seq<Binding>, down: set<nat>, c: nat)
    requires |k| == REPORT_SIZE && TableWf(table)
    requires AllHeld(k, table, down) && !Holding(table, down, c)
    ensures AllHeld(k, table, down - {c})
  {
    forall j | FIRST_SLOT <= j < REPORT_SIZE && k[j] != 0
      ensures CodeHeld(table, down - {c}, k[j])
    {
      var o: nat :| Holding(table, down, o) && table[o].usage[0] == k[j];
      assert Holding(table, down - {c}, o);
    }
    var m := k[1];
    forall bits: bv8 | m & bits != 0
      ensures ModifierHeld(table, down - {c}, bits)
    {
      assert ModifierHeld(table, down, bits);
      var o: nat :| Holding(table, down, o) && table[o].modifier[0] & bits != 0;
      assert Holding(table, down - {c}, o);
    }
  }

  // ---------------------------------------------------------------- event steps

  // What a call may do to the part of the world the invariant speaks of.
  ghost predicate PortInv(p: Port, table: seq<Binding>, down: set<nat>)
    requires TableWf(table)
  {
    && p.Wf()
    && Distinct(p.kbd)
    && AllHeld(p.kbd, table, down)
    && HostAgrees(p)
    && OnlyWide(p.con)
  }

  // A send either keeps both reports or, when a bus reset strikes, blanks them.
  lemma SendKeyboardKeeps(strikes: Strikes, p: Port, table: seq<Binding>, down: set<nat>)
    requires TableWf(table) && p.Wf() && Distinct(p.kbd) && AllHeld(p.kbd, table, down)
    requires OnlyWide(p.con) && HostReport(p.sent, CONSUMER_ID) == p.con
    ensures PortInv(SendKeyboard(strikes, p), table, down)
  {
    SendKeyboardAgrees(strikes, p);
    BlankHeld(table, down);
  }

  // In the middle of a tap the report holds the tapped key too; afterwards it does not.
  lemma TapKeeps(strikes: Strikes, p: Port, table: seq<Binding>, down: set<nat>, mod: bv8, code: bv8)
    requires TableWf(table) && PortInv(p, table, down)
    ensures PortInv(Tap(strikes, p, mod, code), table, down)
  {
    if code != 0 {
      TapAgrees(strikes, p, mod, code);
      TapContents(strikes, p, mod, code);
      DeleteHeld(p.kbd, table, down, mod, code);
      DeleteIsSetRemoval(p.kbd, mod, code);
      BlankHeld(table, down);
    }
  }

  lemma TapContents(strikes: Strikes, p: Port, mod: bv8, code: bv8)
    requires p.Wf() && code != 0
    ensures var q := Tap(strikes, p, mod, code);
            (q.kbd == Delete(p.kbd, mod, code) && q.con == p.con)
            || (q.kbd == Blank(KEYBOARD_ID) && q.con == Blank(CONSUMER_ID))
  {
    TapIsDelete(p.kbd, mod, code);
    assert Delete(Blank(KEYBOARD_ID), mod, code) == Blank(KEYBOARD_ID);
  }

  lemma {:induction false} TapStepsKeep(strikes: Strikes, p: Port, table: seq<Binding>, down: set<nat>,
                                        b: Binding, i: nat, n: nat)
    requires TableWf(table) && PortInv(p, table, down) && b.Wf() && i <= n <= MAX_STEPS
    ensures PortInv(TapSteps(strikes, p, b, i, n), table, down)
    decreases n - i
  {
    if i < n {
      TapKeeps(strikes, p, table, down, b.modifier[i], b.usage[i]);
      TapStepsKeep(strikes, Tap(strikes, p, b.modifier[i], b.usage[i]), table, down, b, i + 1, n);
    }
  }

  lemma TapUsageKeeps(strikes: Strikes, p: Port, table: seq<Binding>, down: set<nat>, key: bv16)
    requires TableWf(table) && PortInv(p, table, down)
    ensures PortInv(TapUsage(strikes, p, key), table, down)
  {
    TapUsageAgrees(strikes, p, key);
    TapUsageReports(strikes, p, key);
    TapKeepsOnlyWide(p.con, key);
    BlankHeld(table, down);
  }

  lemma TapUsageReports(strikes: Strikes, p: Port, key: bv16)
    requires p.Wf()
    ensures var q := TapUsage(strikes, p, key);
            (q.kbd == p.kbd && q.con == TapUsageContents(p.con, key))
            || (q.kbd == Blank(KEYBOARD_ID) && q.con == Blank(CONSUMER_ID))
  {
    BlankHasNothingToDelete(key);
  }

  lemma BlankHasNothingToDelete(key: bv16)
    ensures DeleteUsage(Blank(CONSUMER_ID), key) == Blank(CONSUMER_ID)
  {
    var c := Blank(CONSUMER_ID);
    forall i | 0 <= i < REPORT_SIZE
      ensures ByteWithout(c, key, i) == c[i]
    {
    }
  }

  lemma TriggerKeeps(strikes: Strikes, p: Port, table: seq<Binding>, down: set<nat>, b: Binding)
    requires TableWf(table) && PortInv(p, table, down) && b.Wf()
    ensures PortInv(TriggerPort(strikes, p, b), table, down)
  {
    if b.kind == KEYBOARD {
      TapStepsKeep(strikes, p, table, down, b, 0, Steps(b));
    } else if b.kind == CONSUMER && b.count != 0 {
      TapUsageKeeps(strikes, p, table, down, ConsumerUsage(b));
    }
  }

  lemma HoldKeeps(strikes: Strikes, p: Port, table: seq<Binding>, down: set<nat>, c: nat)
    requires TableWf(table) && PortInv(p, table, down) && c in down && c < CONTROL_COUNT
    requires table[c].Holds()
    ensures PortInv(Press(strikes, p, table[c].modifier[0], table[c].usage[0]), table, down)
  {
    var mod, code := table[c].modifier[0], table[c].usage[0];
    if code != 0 {
      InsertOwnKeeps(p.kbd, table, down, c);
      if HasRoomFor(Merge(p.kbd, mod), code) {
        SendKeyboardKeeps(strikes, p.(kbd := Insert(p.kbd, mod, code)), table, down);
      } else {
        PressAgrees(strikes, p, mod, code);
      }
    }
  }

  lemma InsertOwnKeeps(k: Report, table: seq<Binding>, down: set<nat>, c: nat)
    requires |k| == REPORT_SIZE && Distinct(k) && TableWf(table) && AllHeld(k, table, down)
    requires c in down && c < CONTROL_COUNT && table[c].Holds() && table[c].usage[0] != 0
    ensures var r := Insert(k, table[c].modifier[0], table[c].usage[0]);
            |r| == REPORT_SIZE && Distinct(r) && AllHeld(r, table, down)
  {
    assert Holding(table, down, c);
    InsertHeld(k, table, down, c);
    InsertIsBoundedInsertion(k, table[c].modifier[0], table[c].usage[0]);
  }

  lemma PressKeeps(strikes: Strikes, p: Port, table: seq<Binding>, down: set<nat>, c: nat)
    requires TableWf(table) && PortInv(p, table, down) && c in down && c < CONTROL_COUNT
    ensures PortInv(PressPort(strikes, p, table[c]), table, down)
  {
    if table[c].Holds() {
      HoldKeeps(strikes, p, table, down, c);
    } else if table[c].kind != APP_ONLY {
      TriggerKeeps(strikes, p, table, down, table[c]);
    }
  }

  lemma ReleaseKeeps(strikes: Strikes, p: Port, table: seq<Binding>, down: set<nat>, c: nat)
    requires TableWf(table) && PortInv(p, table, down) && c < CONTROL_COUNT
    ensures PortInv(ReleasePort(strikes, p, table[c]), table, down - {c})
  {
    if table[c].Holds() && table[c].usage[0] != 0 {
      DeleteOwnKeeps(strikes, p, table, down, c);
    } else {
      DropIdle(p.kbd, table, down, c);
    }
  }

  lemma DeleteOwnKeeps(strikes: Strikes, p: Port, table: seq<Binding>, down: set<nat>, c: nat)
    requires TableWf(table) && PortInv(p, table, down) && c < CONTROL_COUNT && table[c].usage[0] != 0
    ensures PortInv(Release(strikes, p, table[c].modifier[0], table[c].usage[0]), table, down - {c})
  {
    var mod, code := table[c].modifier[0], table[c].usage[0];
    DeleteOwn(p.kbd, table, down, c);
    DeleteIsSetRemoval(p.kbd, mod, code);
    SendKeyboardKeeps(strikes, p.(kbd := Delete(p.kbd, mod, code)), table, down - {c});
  }

  lemma ReleaseAllKeeps(strikes: Strikes, p: Port, table: seq<Binding>, down: set<nat>)
    requires TableWf(table) && p.Wf() && HostAgrees(p)
    ensures PortInv(ReleaseAll(strikes, p), table, down)
    ensures ReleaseAll(strikes, p).kbd == Blank(KEYBOARD_ID)
    ensures ReleaseAll(strikes, p).con == Blank(CONSUMER_ID)
  {
    ReleaseAllAgrees(strikes, p);
    BlankHeld(table, down);
  }

  // Waiting for endpoint 2 keeps what the keyboard invariant says.
  lemma WaitKeeps(strikes: Strikes, p: Port, table: seq<Binding>, down: set<nat>)
    requires TableWf(table) && PortInv(p, table, down)
    ensures PortInv(AfterWait(strikes, p), table, down)
  {
    BlankHeld(table, down);
    BusResetAgrees(p);
  }

  lemma PressedKeepsInv(strikes: Strikes, w: World, c: nat)
    requires Inv(w)
    ensures Inv(Step(strikes, w, Pressed(c)))
  {
    var p, table := w.device.port, w.device.table;
    CodesMonotone(p.kbd, table, w.down, w.down + {c});
    ModifiersMonotone(p.kbd[1], table, w.down, w.down + {c});
    if c < CONTROL_COUNT {
      PressKeeps(strikes, p, table, w.down + {c}, c);
    }
  }

  lemma ReleasedKeepsInv(strikes: Strikes, w: World, c: nat)
    requires Inv(w)
    ensures Inv(Step(strikes, w, Released(c)))
  {
    if c < CONTROL_COUNT {
      ReleaseKeeps(strikes, w.device.port, w.device.table, w.down, c);
    } else {
      DropIdle(w.device.port.kbd, w.device.table, w.down, c);
    }
  }

  lemma PacketKeepsInv(strikes: Strikes, w: World, bytes: seq<bv8>)
    requires Inv(w) && Legal(Packet(bytes))
    ensures Inv(Step(strikes, w, Packet(bytes)))
  {
    if AcceptsBinding(bytes) {
      ReleaseAllKeeps(strikes, w.device.port, ApplyPacket(strikes, w.device, bytes).table, w.down);
    }
  }

  lemma StepKeepsInv(strikes: Strikes, w: World, e: Event)
    requires Inv(w) && Legal(e)
    ensures Inv(Step(strikes, w, e))
  {
    var p, table := w.device.port, w.device.table;
    match e
    case Pressed(c) => PressedKeepsInv(strikes, w, c);
    case Released(c) => ReleasedKeepsInv(strikes, w, c);
    case Triggered(c) =>
      if c < CONTROL_COUNT {
        TriggerKeeps(strikes, p, table, w.down, table[c]);
      }
    case Packet(bytes) => PacketKeepsInv(strikes, w, bytes);
    case Clear => ReleaseAllKeeps(strikes, p, table, w.down);
    case Reset =>
      BlankHeld(table, w.down);
      BusResetAgrees(p);
    case Wait => WaitKeeps(strikes, p, table, w.down);
  }

  lemma {:induction false} RunKeepsInv(strikes: Strikes, w: World, events: seq<Event>)
    requires Inv(w) && forall e :: e in events ==> Legal(e)
    ensures Inv(Run(strikes, w, events))
    decreases events
  {
    if events != [] {
      StepKeepsInv(strikes, w, events[0]);
      RunKeepsInv(strikes, Step(strikes, w, events[0]), events[1..]);
    }
  }

  lemma StartInv()
    ensures Inv(START)
  {
    BlankHeld(DEFAULT_TABLE, {});
  }

  // ---------------------------------------------------------------- main results

  // Whatever is in the report belongs to a control that is down and bound as a hold now,
  // even if bindings changed while keys were held.
  lemma NoStuckKeys(strikes: Strikes, events: seq<Event>)
    requires forall e :: e in events ==> Legal(e)
    ensures var w := Run(strikes, START, events);
            AllHeld(w.device.port.kbd, w.device.table, w.down) && Distinct(w.device.port.kbd)
  {
    StartInv();
    RunKeepsInv(strikes, START, events);
  }

  // With nothing down, the device's report and the host's copy of it are both empty.
  lemma NothingDownNothingHeld(strikes: Strikes, events: seq<Event>)
    requires forall e :: e in events ==> Legal(e)
    requires Run(strikes, START, events).down == {}
    ensures var p := Run(strikes, START, events).device.port;
            p.kbd == Blank(KEYBOARD_ID) && HostReport(p.sent, KEYBOARD_ID) == Blank(KEYBOARD_ID)
  {
    StartInv();
    RunKeepsInv(strikes, START, events);
    NoneHeldIsBlank(Run(strikes, START, events));
  }

  lemma NoneHeldIsBlank(w: World)
    requires Inv(w) && w.down == {}
    ensures w.device.port.kbd == Blank(KEYBOARD_ID)
    ensures HostReport(w.device.port.sent, KEYBOARD_ID) == Blank(KEYBOARD_ID)
  {
    var k := w.device.port.kbd;
    assert k[1] & 0xFF != 0 ==> ModifierHeld(w.device.table, w.down, 0xFF);
    assert k[1] == k[1] & 0xFF == 0;
    var h := HostReport(w.device.port.sent, KEYBOARD_ID);
    assert h[1] & !k[1] == h[1];
  }

  // The host's six slots are the device's, its modifiers are among the device's, and its
  // consumer report is the device's, after every run.
  lemma HostFollowsDevice(strikes: Strikes, events: seq<Event>)
    requires forall e :: e in events ==> Legal(e)
    ensures HostAgrees(Run(strikes, START, events).device.port)
  {
    StartInv();
    RunKeepsInv(strikes, START, events);
  }
}
