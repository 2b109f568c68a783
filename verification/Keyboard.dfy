/**
 The keyboard and consumer reports of include/usb_conkbd.c.

 A `Port` is the value of the two 9-byte report buffers together with the reports
 handed to endpoint 1 since the last bus reset. The functions say what each call does to
 a `Port`; the class `Reports` holds the buffers themselves and updates them in place.
 */
module Keyboard {

  type Report = seq<bv8>

  const KEYBOARD_ID: bv8 := 1
  const CONSUMER_ID: bv8 := 2

  // Slots 3..8 of a keyboard report hold key codes; byte 1 holds the modifiers.
  const FIRST_SLOT := 3
  const REPORT_SIZE := 9

  // A bus reset may strike while a send waits for the endpoint. Strikes(n) says
  // whether one does during the n-th wait; the model is proved for every such schedule.
  type Strikes = nat -> bool

  datatype Port = Port(kbd: Report, con: Report, sent: seq<Report>, waits: nat) {

    // What no call ever changes: sizes, report IDs and the reserved byte.
    ghost predicate Wf() {
      && |kbd| == REPORT_SIZE && kbd[0] == KEYBOARD_ID && kbd[2] == 0
      && |con| == REPORT_SIZE && con[0] == CONSUMER_ID
    }
  }

  ghost predicate InSlots(k: Report, code: bv8)
    requires |k| == REPORT_SIZE
  {
    exists j :: FIRST_SLOT <= j < REPORT_SIZE && k[j] == code
  }

  function Blank(id: bv8): (r: Report)
    ensures |r| == REPORT_SIZE && r[0] == id
    ensures forall i :: 1 <= i < REPORT_SIZE ==> r[i] == 0
  {
    [id, 0, 0, 0, 0, 0, 0, 0, 0]
  }

  const POWER_ON := Port(Blank(KEYBOARD_ID), Blank(CONSUMER_ID), [], 0)

  // ---------------------------------------------------------------- report contents

  // The first slot from i on that holds v, or 9.
  function FindSlot(k: Report, v: bv8, i: nat): (r: nat)
    requires |k| == REPORT_SIZE && FIRST_SLOT <= i <= REPORT_SIZE
    ensures i <= r <= REPORT_SIZE
    ensures r < REPORT_SIZE ==> k[r] == v
    ensures forall j :: i <= j < r ==> k[j] != v
    decreases REPORT_SIZE - i
  {
    if i == REPORT_SIZE || k[i] == v then i else FindSlot(k, v, i + 1)
  }

  predicate HasRoomFor(k: Report, code: bv8)
    requires |k| == REPORT_SIZE
  {
    FindSlot(k, code, FIRST_SLOT) == REPORT_SIZE && FindSlot(k, 0, FIRST_SLOT) < REPORT_SIZE
  }

  function Merge(k: Report, mod: bv8): (r: Report)
    requires |k| == REPORT_SIZE
    ensures |r| == REPORT_SIZE
  {
    k[1 := k[1] | mod]
  }

  // Modifiers are always merged; the code takes the first free slot if it needs one.
  function Insert(k: Report, mod: bv8, code: bv8): (r: Report)
    requires |k| == REPORT_SIZE
  {
    var m := Merge(k, mod);
    if HasRoomFor(m, code) then m[FindSlot(m, 0, FIRST_SLOT) := code] else m
  }

  function Delete(k: Report, mod: bv8, code: bv8): (r: Report)
    requires |k| == REPORT_SIZE
  {
    seq(REPORT_SIZE, i requires 0 <= i < REPORT_SIZE =>
      if i == 1 then k[1] & !mod
      else if FIRST_SLOT <= i && k[i] == code then 0
      else k[i])
  }

  // ---------------------------------------------------------------- the calls

  function ResetState(p: Port): (q: Port)
    requires p.Wf()
    ensures q.Wf()
  {
    p.(kbd := Blank(KEYBOARD_ID), con := Blank(CONSUMER_ID))
  }

  // A bus reset: both reports are cleared and the host forgets what it was told.
  function BusReset(p: Port): (q: Port)
    requires p.Wf()
    ensures q.Wf()
  {
    ResetState(p).(sent := [])
  }

  function AfterWait(strikes: Strikes, p: Port): (q: Port)
    requires p.Wf()
    ensures q.Wf()
  {
    (if strikes(p.waits) then BusReset(p) else p).(waits := p.waits + 1)
  }

  function SendKeyboard(strikes: Strikes, p: Port): (q: Port)
    requires p.Wf()
    ensures q.Wf()
  {
    var w := AfterWait(strikes, p);
    w.(sent := w.sent + [w.kbd])
  }

  function SendConsumer(strikes: Strikes, p: Port): (q: Port)
    requires p.Wf()
    ensures q.Wf()
  {
    var w := AfterWait(strikes, p);
    w.(sent := w.sent + [w.con])
  }

  function Press(strikes: Strikes, p: Port, mod: bv8, code: bv8): (q: Port)
    requires p.Wf()
    ensures q.Wf()
  {
    if code == 0 then p
    else
      var m := p.(kbd := Insert(p.kbd, mod, code));
      if HasRoomFor(Merge(p.kbd, mod), code) then SendKeyboard(strikes, m) else m
  }

  function Release(strikes: Strikes, p: Port, mod: bv8, code: bv8): (q: Port)
    requires p.Wf()
    ensures q.Wf()
  {
    if code == 0 then p else SendKeyboard(strikes, p.(kbd := Delete(p.kbd, mod, code)))
  }

  function Tap(strikes: Strikes, p: Port, mod: bv8, code: bv8): (q: Port)
    requires p.Wf()
    ensures q.Wf()
  {
    Release(strikes, Press(strikes, p, mod, code), mod, code)
  }

  function ReleaseKeyboard(strikes: Strikes, p: Port): (q: Port)
    requires p.Wf()
    ensures q.Wf()
  {
    SendKeyboard(strikes, p.(kbd := Blank(KEYBOARD_ID)))
  }

  function ReleaseConsumer(strikes: Strikes, p: Port): (q: Port)
    requires p.Wf()
    ensures q.Wf()
  {
    SendConsumer(strikes, p.(con := Blank(CONSUMER_ID)))
  }

  function ReleaseAll(strikes: Strikes, p: Port): (q: Port)
    requires p.Wf()
    ensures q.Wf()
  {
    ReleaseConsumer(strikes, ReleaseKeyboard(strikes, p))
  }

  // ---------------------------------------------------------------- consumer report

  function Low(key: bv16): bv8 { (key & 0xFF) as bv8 }

  function High(key: bv16): bv8 { (key >> 8) as bv8 }

  // The source writes `CON_report[i] == key & 0xFF`, which C reads as
  // `(CON_report[i] == key) & 0xFF`: the byte is compared with the whole 16-bit usage.
  predicate MatchesPair(c: Report, i: nat, key: bv16)
    requires i + 1 < |c|
  {
    c[i] as bv16 == key && c[i + 1] == High(key)
  }

  predicate FreePair(c: Report, i: nat)
    requires i + 1 < |c|
  {
    c[i] == 0 && c[i + 1] == 0
  }

  // The first pair from i on matching the usage, or 9.
  function FindPair(c: Report, key: bv16, i: nat): (r: nat)
    requires |c| == REPORT_SIZE && i % 2 == 1 && i <= REPORT_SIZE
    ensures i <= r <= REPORT_SIZE && r % 2 == 1
    ensures r < REPORT_SIZE ==> MatchesPair(c, r, key)
    ensures forall j :: i <= j < r && j % 2 == 1 ==> !MatchesPair(c, j, key)
    decreases REPORT_SIZE - i
  {
    if i == REPORT_SIZE || MatchesPair(c, i, key) then i else FindPair(c, key, i + 2)
  }

  function FindFreePair(c: Report, i: nat): (r: nat)
    requires |c| == REPORT_SIZE && i % 2 == 1 && i <= REPORT_SIZE
    ensures i <= r <= REPORT_SIZE && r % 2 == 1
    ensures r < REPORT_SIZE ==> FreePair(c, r)
    ensures forall j :: i <= j < r && j % 2 == 1 ==> !FreePair(c, j)
    decreases REPORT_SIZE - i
  {
    if i == REPORT_SIZE || FreePair(c, i) then i else FindFreePair(c, i + 2)
  }

  predicate HasRoomForUsage(c: Report, key: bv16)
    requires |c| == REPORT_SIZE
  {
    FindPair(c, key, 1) == REPORT_SIZE && FindFreePair(c, 1) < REPORT_SIZE
  }

  function InsertUsage(c: Report, key: bv16): (r: Report)
    requires |c| == REPORT_SIZE && HasRoomForUsage(c, key)
    ensures |r| == REPORT_SIZE && r[0] == c[0]
  {
    var i := FindFreePair(c, 1);
    c[i := Low(key)][i + 1 := High(key)]
  }

  // The index of the first byte of the pair that byte i belongs to.
  function PairOf(i: nat): nat
    requires i >= 1
  {
    if i % 2 == 1 then i else i - 1
  }

  function ByteWithout(c: Report, key: bv16, i: nat): bv8
    requires |c| == REPORT_SIZE && i < REPORT_SIZE
  {
    if i >= 1 && MatchesPair(c, PairOf(i), key) then 0 else c[i]
  }

  function DeleteUsage(c: Report, key: bv16): (r: Report)
    requires |c| == REPORT_SIZE
    ensures |r| == REPORT_SIZE && r[0] == c[0]
  {
    seq(REPORT_SIZE, i requires 0 <= i < REPORT_SIZE => ByteWithout(c, key, i))
  }

  function PressUsage(strikes: Strikes, p: Port, key: bv16): (q: Port)
    requires p.Wf()
    ensures q.Wf()
  {
    if HasRoomForUsage(p.con, key) then SendConsumer(strikes, p.(con := InsertUsage(p.con, key))) else p
  }

  function ReleaseUsage(strikes: Strikes, p: Port, key: bv16): (q: Port)
    requires p.Wf()
    ensures q.Wf()
  {
    SendConsumer(strikes, p.(con := DeleteUsage(p.con, key)))
  }

  function TapUsage(strikes: Strikes, p: Port, key: bv16): (q: Port)
    requires p.Wf()
    ensures q.Wf()
  {
    ReleaseUsage(strikes, PressUsage(strikes, p, key), key)
  }

  // ---------------------------------------------------------------- loops over a buffer

  method ZeroPayload(a: array<bv8>)
    requires a.Length == REPORT_SIZE
    modifies a
    ensures a[..] == Blank(old(a[0]))
  {
    var i := 8;
    while i != 0
      invariant 0 <= i <= 8
      invariant a[0] == old(a[0])
      invariant forall j :: i < j < REPORT_SIZE ==> a[j] == 0
    {
      a[i] := 0;
      i := i - 1;
    }
  }

  method SlotOf(a: array<bv8>, v: bv8) returns (i: nat)
    requires a.Length == REPORT_SIZE
    ensures i == FindSlot(a[..], v, FIRST_SLOT)
  {
    i := FIRST_SLOT;
    while i < REPORT_SIZE && a[i] != v
      invariant FIRST_SLOT <= i <= REPORT_SIZE
      invariant FindSlot(a[..], v, FIRST_SLOT) == FindSlot(a[..], v, i)
    {
      i := i + 1;
    }
  }

  method ZeroSlots(a: array<bv8>, code: bv8)
    requires a.Length == REPORT_SIZE
    modifies a
    ensures forall j :: 0 <= j < REPORT_SIZE ==>
      a[j] == if FIRST_SLOT <= j && old(a[j]) == code then 0 else old(a[j])
  {
    var i := FIRST_SLOT;
    while i < REPORT_SIZE
      invariant FIRST_SLOT <= i <= REPORT_SIZE
      invariant forall j :: FIRST_SLOT <= j < i ==> a[j] == if old(a[j]) == code then 0 else old(a[j])
      invariant forall j :: 0 <= j < REPORT_SIZE && (j < FIRST_SLOT || i <= j) ==> a[j] == old(a[j])
    {
      if a[i] == code {
        a[i] := 0;
      }
      i := i + 1;
    }
  }

  lemma DeletedBytes(before: Report, now: Report, mod: bv8, code: bv8)
    requires |before| == |now| == REPORT_SIZE && now[1] == before[1] & !mod
    requires forall j :: 0 <= j < REPORT_SIZE && j != 1 ==>
      now[j] == if FIRST_SLOT <= j && before[j] == code then 0 else before[j]
    ensures now == Delete(before, mod, code)
  {
  }

  method PairOfUsage(a: array<bv8>, key: bv16) returns (i: nat)
    requires a.Length == REPORT_SIZE
    ensures i == FindPair(a[..], key, 1)
  {
    i := 1;
    while i < REPORT_SIZE && !(a[i] as bv16 == key && a[i + 1] == High(key))
      invariant 1 <= i <= REPORT_SIZE && i % 2 == 1
      invariant FindPair(a[..], key, 1) == FindPair(a[..], key, i)
    {
      i := i + 2;
    }
  }

  method FirstFreePair(a: array<bv8>) returns (i: nat)
    requires a.Length == REPORT_SIZE
    ensures i == FindFreePair(a[..], 1)
  {
    i := 1;
    while i < REPORT_SIZE && !(a[i] == 0 && a[i + 1] == 0)
      invariant 1 <= i <= REPORT_SIZE && i % 2 == 1
      invariant FindFreePair(a[..], 1) == FindFreePair(a[..], i)
    {
      i := i + 2;
    }
  }

  lemma BytesOfPair(c: Report, key: bv16, i: nat)
    requires |c| == REPORT_SIZE && 1 <= i < REPORT_SIZE && i % 2 == 1
    ensures i + 1 < REPORT_SIZE
    ensures ByteWithout(c, key, i) == (if MatchesPair(c, i, key) then 0 else c[i])
    ensures ByteWithout(c, key, i + 1) == (if MatchesPair(c, i, key) then 0 else c[i + 1])
  {
    assert PairOf(i) == i && PairOf(i + 1) == i;
  }

  // The first i bytes are done, the others are as they were.
  ghost predicate DoneUpTo(now: Report, before: Report, after: Report, i: nat) {
    && |now| == |before| == |after| == REPORT_SIZE
    && forall j :: 0 <= j < REPORT_SIZE ==> now[j] == if j < i then after[j] else before[j]
  }

  lemma NextPairDone(now: Report, before: Report, key: bv16, i: nat)
    requires 1 <= i < REPORT_SIZE && i % 2 == 1 && |before| == REPORT_SIZE
    requires DoneUpTo(now, before, DeleteUsage(before, key), i)
    ensures i + 1 < REPORT_SIZE
    ensures DoneUpTo(if MatchesPair(now, i, key) then now[i := 0][i + 1 := 0] else now,
                     before, DeleteUsage(before, key), i + 2)
  {
    BytesOfPair(before, key, i);
    TwoDone(now, before, DeleteUsage(before, key), i, MatchesPair(before, i, key));
  }

  lemma TwoDone(now: Report, before: Report, after: Report, i: nat, zero: bool)
    requires i + 1 < REPORT_SIZE && DoneUpTo(now, before, after, i)
    requires after[i] == (if zero then 0 else before[i]) && after[i + 1] == (if zero then 0 else before[i + 1])
    ensures now[i] == before[i] && now[i + 1] == before[i + 1]
    ensures DoneUpTo(if zero then now[i := 0][i + 1 := 0] else now, before, after, i + 2)
  {
  }

  method ZeroPairs(a: array<bv8>, key: bv16)
    requires a.Length == REPORT_SIZE
    modifies a
    ensures a[..] == DeleteUsage(old(a[..]), key)
  {
    var i := 1;
    ghost var before, after := a[..], DeleteUsage(a[..], key);
    while i < REPORT_SIZE
      invariant 1 <= i <= REPORT_SIZE && i % 2 == 1
      invariant DoneUpTo(a[..], before, after, i)
    {
      ghost var now := a[..];
      NextPairDone(now, before, key, i);
      if a[i] as bv16 == key && a[i + 1] == High(key) {
        a[i] := 0;
        a[i + 1] := 0;
        assert a[..] == now[i := 0][i + 1 := 0];
      }
      i := i + 2;
    }
  }

  // ---------------------------------------------------------------- the buffers in place

  class Reports {
    const strikes: Strikes
    const kbd: array<bv8>
    const con: array<bv8>
    var sent: seq<Report>
    var waits: nat

    ghost function Footprint(): set<object> { {this, kbd, con} }

    ghost function State(): Port
      reads this, kbd, con
    {
      Port(kbd[..], con[..], sent, waits)
    }

    ghost predicate Valid()
      reads this, kbd, con
    {
      kbd.Length == REPORT_SIZE && con.Length == REPORT_SIZE && kbd != con && State().Wf()
    }

    constructor (strikes: Strikes)
      ensures Valid() && State() == POWER_ON && this.strikes == strikes
      ensures fresh(kbd) && fresh(con)
    {
      this.strikes := strikes;
      kbd := new bv8[] [KEYBOARD_ID, 0, 0, 0, 0, 0, 0, 0, 0];
      con := new bv8[] [CONSUMER_ID, 0, 0, 0, 0, 0, 0, 0, 0];
      sent := [];
      waits := 0;
    }

    method HandleBusReset()
      requires Valid()
      modifies Footprint()
      ensures Valid() && State() == BusReset(old(State()))
    {
      ZeroPayload(kbd);
      ZeroPayload(con);
      sent := [];
    }

    method AwaitEndpoint()
      requires Valid()
      modifies Footprint()
      ensures Valid() && State() == AfterWait(strikes, old(State()))
    {
      if strikes(waits) {
        HandleBusReset();
      }
      waits := waits + 1;
    }

    method SendKeyboardReport()
      requires Valid()
      modifies Footprint()
      ensures Valid() && State() == SendKeyboard(strikes, old(State()))
    {
      AwaitEndpoint();
      sent := sent + [kbd[..]];
    }

    method SendConsumerReport()
      requires Valid()
      modifies Footprint()
      ensures Valid() && State() == SendConsumer(strikes, old(State()))
    {
      AwaitEndpoint();
      sent := sent + [con[..]];
    }

    method MergeModifiers(mod: bv8)
      requires Valid()
      modifies kbd
      ensures Valid() && State() == old(State()).(kbd := Merge(old(kbd[..]), mod))
    {
      kbd[1] := kbd[1] | mod;
      assert kbd[..] == Merge(old(kbd[..]), mod);
    }

    method FillSlot(i: nat, code: bv8)
      requires Valid() && FIRST_SLOT <= i < REPORT_SIZE
      modifies kbd
      ensures Valid() && State() == old(State()).(kbd := old(kbd[..])[i := code])
    {
      kbd[i] := code;
      assert kbd[..] == old(kbd[..])[i := code];
    }

    method PressCode(mod: bv8, code: bv8)
      requires Valid()
      modifies Footprint()
      ensures Valid() && State() == Press(strikes, old(State()), mod, code)
    {
      if code == 0 {
        return;
      }
      MergeModifiers(mod);
      var present := SlotOf(kbd, code);
      if present < REPORT_SIZE {
        return;
      }
      var free := SlotOf(kbd, 0);
      if free < REPORT_SIZE {
        FillSlot(free, code);
        SendKeyboardReport();
      }
    }

    method ReleaseCode(mod: bv8, code: bv8)
      requires Valid()
      modifies Footprint()
      ensures Valid() && State() == Release(strikes, old(State()), mod, code)
    {
      if code == 0 {
        return;
      }
      RemoveKey(mod, code);
      SendKeyboardReport();
    }

    method RemoveKey(mod: bv8, code: bv8)
      requires Valid()
      modifies kbd
      ensures Valid() && State() == old(State()).(kbd := Delete(old(kbd[..]), mod, code))
    {
      ghost var before := kbd[..];
      kbd[1] := kbd[1] & !mod;
      ZeroSlots(kbd, code);
      DeletedBytes(before, kbd[..], mod, code);
    }

    method TapCode(mod: bv8, code: bv8)
      requires Valid()
      modifies Footprint()
      ensures Valid() && State() == Tap(strikes, old(State()), mod, code)
    {
      PressCode(mod, code);
      ReleaseCode(mod, code);
    }

    method FillPair(i: nat, key: bv16)
      requires Valid() && 1 <= i && i + 1 < REPORT_SIZE
      modifies con
      ensures Valid() && State() == old(State()).(con := old(con[..])[i := Low(key)][i + 1 := High(key)])
    {
      con[i] := Low(key);
      con[i + 1] := High(key);
      assert con[..] == old(con[..])[i := Low(key)][i + 1 := High(key)];
    }

    method PressConsumer(key: bv16)
      requires Valid()
      modifies Footprint()
      ensures Valid() && State() == PressUsage(strikes, old(State()), key)
    {
      var present := PairOfUsage(con, key);
      if present < REPORT_SIZE {
        return;
      }
      var free := FirstFreePair(con);
      if free < REPORT_SIZE {
        FillPair(free, key);
        SendConsumerReport();
      }
    }

    method ReleaseConsumerUsage(key: bv16)
      requires Valid()
      modifies Footprint()
      ensures Valid() && State() == ReleaseUsage(strikes, old(State()), key)
    {
      ZeroPairs(con, key);
      SendConsumerReport();
    }

    method TapConsumer(key: bv16)
      requires Valid()
      modifies Footprint()
      ensures Valid() && State() == TapUsage(strikes, old(State()), key)
    {
      PressConsumer(key);
      ReleaseConsumerUsage(key);
    }

    method ReleaseEverything()
      requires Valid()
      modifies Footprint()
      ensures Valid() && State() == ReleaseAll(strikes, old(State()))
    {
      ZeroPayload(kbd);
      SendKeyboardReport();
      ZeroPayload(con);
      SendConsumerReport();
    }
  }
}
