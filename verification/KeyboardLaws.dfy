/**
 What the slot arrays of include/usb_conkbd.c amount to: a keyboard report is a set of at
 most six key codes with a modifier mask, a tap undoes itself exactly when it should, and
 the host's copy follows the device's.
 */
module KeyboardLaws {
  import opened Keyboard

  // ---------------------------------------------------------------- bounded set

  const CAPACITY := 6

  // The reference definition of a keyboard report.
  datatype Chord = Chord(keys: set<bv8>, mods: bv8) {
    function Press(mod: bv8, code: bv8): Chord {
      if code == 0 then this
      else Chord(if |keys| < CAPACITY then keys + {code} else keys, mods | mod)
    }

    function Release(mod: bv8, code: bv8): Chord {
      if code == 0 then this else Chord(keys - {code}, mods & !mod)
    }
  }

  ghost predicate Distinct(k: Report)
    requires |k| == REPORT_SIZE
  {
    forall i, j :: FIRST_SLOT <= i < j < REPORT_SIZE && k[i] != 0 ==> k[i] != k[j]
  }

  function KeysFrom(k: Report, i: nat): set<bv8>
    requires |k| == REPORT_SIZE && FIRST_SLOT <= i <= REPORT_SIZE
    decreases REPORT_SIZE - i
  {
    if i == REPORT_SIZE then {}
    else KeysFrom(k, i + 1) + (if k[i] == 0 then {} else {k[i]})
  }

  function ChordOf(k: Report): Chord
    requires |k| == REPORT_SIZE
  {
    Chord(KeysFrom(k, FIRST_SLOT), k[1])
  }

  lemma {:induction false} KeysFromMembers(k: Report, i: nat, v: bv8)
    requires |k| == REPORT_SIZE && FIRST_SLOT <= i <= REPORT_SIZE
    ensures v in KeysFrom(k, i) <==> v != 0 && exists j :: i <= j < REPORT_SIZE && k[j] == v
    decreases REPORT_SIZE - i
  {
    if i < REPORT_SIZE {
      KeysFromMembers(k, i + 1, v);
    }
  }

  // With distinct codes the set is full exactly when no slot is free.
  lemma {:induction false} KeysFromSize(k: Report, i: nat)
    requires |k| == REPORT_SIZE && FIRST_SLOT <= i <= REPORT_SIZE && Distinct(k)
    ensures |KeysFrom(k, i)| <= REPORT_SIZE - i
    ensures |KeysFrom(k, i)| == REPORT_SIZE - i <==> FullFrom(k, i)
    decreases REPORT_SIZE - i
  {
    if i < REPORT_SIZE {
      KeysFromSize(k, i + 1);
      OneSlotMore(k, i);
      if k[i] != 0 {
        KeysFromMembers(k, i + 1, k[i]);
        OneMore(KeysFrom(k, i + 1), k[i]);
      }
    }
  }

  ghost predicate FullFrom(k: Report, i: nat)
    requires |k| == REPORT_SIZE
  {
    forall j :: i <= j < REPORT_SIZE ==> k[j] != 0
  }

  lemma OneSlotMore(k: Report, i: nat)
    requires |k| == REPORT_SIZE && i < REPORT_SIZE
    ensures FullFrom(k, i) <==> k[i] != 0 && FullFrom(k, i + 1)
  {
  }

  lemma OneMore(s: set<bv8>, x: bv8)
    requires x !in s
    ensures |s + {x}| == |s| + 1
  {
  }

  // r is k with the modifiers merged and the code placed in slot s (9 for nowhere).
  ghost predicate Inserted(k: Report, r: Report, mod: bv8, code: bv8, s: nat)
    requires |k| == REPORT_SIZE
  {
    && |r| == REPORT_SIZE && r[0] == k[0] && r[1] == k[1] | mod && r[2] == k[2]
    && FIRST_SLOT <= s <= REPORT_SIZE
    && (forall j :: FIRST_SLOT <= j < REPORT_SIZE && j != s ==> r[j] == k[j])
    && (s < REPORT_SIZE ==> k[s] == 0 && r[s] == code && !InSlots(k, code))
    && (s == REPORT_SIZE ==> InSlots(k, code) || !InSlots(k, 0))
  }

  lemma FindSlotDecides(k: Report, v: bv8)
    requires |k| == REPORT_SIZE
    ensures InSlots(k, v) <==> FindSlot(k, v, FIRST_SLOT) < REPORT_SIZE
  {
  }

  lemma MergeKeepsSlots(k: Report, mod: bv8, v: bv8)
    requires |k| == REPORT_SIZE
    ensures InSlots(Merge(k, mod), v) <==> InSlots(k, v)
  {
    if j :| FIRST_SLOT <= j < REPORT_SIZE && k[j] == v {
      assert Merge(k, mod)[j] == v;
    }
  }

  lemma InsertInserts(k: Report, mod: bv8, code: bv8) returns (s: nat)
    requires |k| == REPORT_SIZE && code != 0
    ensures Inserted(k, Insert(k, mod, code), mod, code, s)
  {
    var m := Merge(k, mod);
    RoomDecides(k, mod, code);
    s := if HasRoomFor(m, code) then FindSlot(m, 0, FIRST_SLOT) else REPORT_SIZE;
  }

  lemma RoomDecides(k: Report, mod: bv8, code: bv8)
    requires |k| == REPORT_SIZE
    ensures HasRoomFor(Merge(k, mod), code) <==> !InSlots(k, code) && InSlots(k, 0)
  {
    var m := Merge(k, mod);
    FindSlotDecides(m, code);
    FindSlotDecides(m, 0);
    MergeKeepsSlots(k, mod, code);
    MergeKeepsSlots(k, mod, 0);
  }

  lemma InsertedKeys(k: Report, r: Report, mod: bv8, code: bv8, s: nat)
    requires |k| == REPORT_SIZE && code != 0 && Inserted(k, r, mod, code, s)
    ensures KeysFrom(r, FIRST_SLOT) ==
      KeysFrom(k, FIRST_SLOT) + (if s < REPORT_SIZE then {code} else {})
  {
    forall v
      ensures v in KeysFrom(r, FIRST_SLOT) <==>
        v in KeysFrom(k, FIRST_SLOT) || (s < REPORT_SIZE && v == code)
    {
      InsertedKey(k, r, mod, code, s, v);
    }
  }

  lemma InsertedKey(k: Report, r: Report, mod: bv8, code: bv8, s: nat, v: bv8)
    requires |k| == REPORT_SIZE && code != 0 && Inserted(k, r, mod, code, s)
    ensures v in KeysFrom(r, FIRST_SLOT) <==> v in KeysFrom(k, FIRST_SLOT) || (s < REPORT_SIZE && v == code)
  {
    KeysFromMembers(k, FIRST_SLOT, v);
    KeysFromMembers(r, FIRST_SLOT, v);
    if v in KeysFrom(k, FIRST_SLOT) {
      var j :| FIRST_SLOT <= j < REPORT_SIZE && k[j] == v;
      assert r[j] == v;
    }
  }

  lemma InsertedDistinct(k: Report, r: Report, mod: bv8, code: bv8, s: nat)
    requires |k| == REPORT_SIZE && code != 0 && Inserted(k, r, mod, code, s) && Distinct(k)
    ensures Distinct(r)
  {
  }

  lemma SizeDecides(k: Report)
    requires |k| == REPORT_SIZE && Distinct(k)
    ensures |KeysFrom(k, FIRST_SLOT)| <= CAPACITY
    ensures |KeysFrom(k, FIRST_SLOT)| == CAPACITY <==> !InSlots(k, 0)
  {
    KeysFromSize(k, FIRST_SLOT);
  }

  lemma InsertedChord(k: Report, r: Report, mod: bv8, code: bv8, s: nat)
    requires |k| == REPORT_SIZE && code != 0 && Inserted(k, r, mod, code, s) && Distinct(k)
    ensures ChordOf(r) == ChordOf(k).Press(mod, code)
    ensures |ChordOf(k).keys| <= CAPACITY
  {
    var keys, placed := KeysFrom(k, FIRST_SLOT), s < REPORT_SIZE;
    InsertedKeys(k, r, mod, code, s);
    SizeDecides(k);
    PlacedWhenRoom(k, r, mod, code, s);
    ChordAfterInsert(keys, KeysFrom(r, FIRST_SLOT), code, placed, k[1], mod);
  }

  lemma PlacedWhenRoom(k: Report, r: Report, mod: bv8, code: bv8, s: nat)
    requires |k| == REPORT_SIZE && code != 0 && Inserted(k, r, mod, code, s)
    ensures s < REPORT_SIZE ==> InSlots(k, 0)
    ensures s == REPORT_SIZE ==> code in KeysFrom(k, FIRST_SLOT) || !InSlots(k, 0)
  {
    KeysFromMembers(k, FIRST_SLOT, code);
  }

  lemma ChordAfterInsert(keys: set<bv8>, after: set<bv8>, code: bv8, placed: bool, mods: bv8, mod: bv8)
    requires code != 0 && |keys| <= CAPACITY
    requires after == keys + if placed then {code} else {}
    requires if placed then |keys| < CAPACITY else code in keys || |keys| == CAPACITY
    ensures Chord(after, mods | mod) == Chord(keys, mods).Press(mod, code)
  {
    if code in keys {
      assert keys + {code} == keys;
    }
  }

  lemma InsertIsBoundedInsertion(k: Report, mod: bv8, code: bv8)
    requires |k| == REPORT_SIZE && Distinct(k) && code != 0
    ensures Distinct(Insert(k, mod, code))
    ensures ChordOf(Insert(k, mod, code)) == ChordOf(k).Press(mod, code)
    ensures |ChordOf(k).keys| <= CAPACITY
  {
    var r := Insert(k, mod, code);
    var s := InsertInserts(k, mod, code);
    InsertedDistinct(k, r, mod, code, s);
    InsertedChord(k, r, mod, code, s);
  }

  lemma DeleteIsSetRemoval(k: Report, mod: bv8, code: bv8)
    requires |k| == REPORT_SIZE && Distinct(k) && code != 0
    ensures Distinct(Delete(k, mod, code))
    ensures ChordOf(Delete(k, mod, code)) == ChordOf(k).Release(mod, code)
  {
    var r := Delete(k, mod, code);
    forall v ensures v in KeysFrom(r, FIRST_SLOT) <==> v in ChordOf(k).Release(mod, code).keys {
      DeletedKey(k, mod, code, v);
    }
  }

  lemma DeletedKey(k: Report, mod: bv8, code: bv8, v: bv8)
    requires |k| == REPORT_SIZE && code != 0
    ensures v in KeysFrom(Delete(k, mod, code), FIRST_SLOT) <==> v in KeysFrom(k, FIRST_SLOT) - {code}
  {
    var r := Delete(k, mod, code);
    KeysFromMembers(k, FIRST_SLOT, v);
    KeysFromMembers(r, FIRST_SLOT, v);
    assert forall j :: FIRST_SLOT <= j < REPORT_SIZE ==> r[j] == if k[j] == code then 0 else k[j];
  }

  // ---------------------------------------------------------------- taps

  // A tap leaves what a release alone would leave, whether or not there was room.
  lemma TapIsDelete(k: Report, mod: bv8, code: bv8)
    requires |k| == REPORT_SIZE && code != 0
    ensures Delete(Insert(k, mod, code), mod, code) == Delete(k, mod, code)
  {
    var s := InsertInserts(k, mod, code);
    DeleteAfterInserted(k, Insert(k, mod, code), mod, code, s);
  }

  lemma DeleteAfterInserted(k: Report, r: Report, mod: bv8, code: bv8, s: nat)
    requires |k| == REPORT_SIZE && code != 0 && Inserted(k, r, mod, code, s)
    ensures Delete(r, mod, code) == Delete(k, mod, code)
  {
    assert (k[1] | mod) & !mod == k[1] & !mod;
  }

  lemma MaskedBits(b: bv8, mod: bv8)
    ensures b & mod == 0 <==> b & !mod == b
  {
  }

  lemma DeleteChangesNothing(k: Report, mod: bv8, code: bv8)
    requires |k| == REPORT_SIZE && code != 0
    ensures Delete(k, mod, code) == k <==> k[1] & mod == 0 && !InSlots(k, code)
  {
    var d := Delete(k, mod, code);
    MaskedBits(k[1], mod);
    if k[1] & mod == 0 && !InSlots(k, code) {
      assert forall j :: 0 <= j < REPORT_SIZE ==> d[j] == k[j];
    } else if j :| FIRST_SLOT <= j < REPORT_SIZE && k[j] == code {
      assert d[j] != k[j];
    } else {
      assert d[1] != k[1];
    }
  }

  // The report survives a tap byte for byte exactly when nobody holds what is tapped,
  // even when all six slots are taken.
  lemma TapRestoresExactly(k: Report, mod: bv8, code: bv8)
    requires |k| == REPORT_SIZE && code != 0
    ensures Delete(Insert(k, mod, code), mod, code) == k <==>
      k[1] & mod == 0 && !InSlots(k, code)
  {
    TapIsDelete(k, mod, code);
    DeleteChangesNothing(k, mod, code);
  }

  // ---------------------------------------------------------------- consumer taps

  // Usages above 0xFF never match a pair, so no call but ReleaseAll or a reset removes them.
  lemma WideNeverMatches(c: Report, i: nat, key: bv16)
    requires i + 1 < |c| && key > 0xFF
    ensures !MatchesPair(c, i, key)
  {
  }

  function TapUsageContents(c: Report, key: bv16): (r: Report)
    requires |c| == REPORT_SIZE
  {
    DeleteUsage(if HasRoomForUsage(c, key) then InsertUsage(c, key) else c, key)
  }

  ghost predicate HasPair(c: Report, key: bv16)
    requires |c| == REPORT_SIZE
  {
    exists i :: 1 <= i < REPORT_SIZE && i % 2 == 1 && MatchesPair(c, i, key)
  }

  ghost predicate HasFreePair(c: Report)
    requires |c| == REPORT_SIZE
  {
    exists i :: 1 <= i < REPORT_SIZE && i % 2 == 1 && FreePair(c, i)
  }

  lemma WideTapContents(c: Report, key: bv16)
    requires |c| == REPORT_SIZE && key > 0xFF
    ensures TapUsageContents(c, key) == if HasFreePair(c) then InsertUsage(c, key) else c
  {
    DeleteWideNothing(c, key);
    if HasRoomForUsage(c, key) {
      DeleteWideNothing(InsertUsage(c, key), key);
    }
  }

  lemma DeleteWideNothing(c: Report, key: bv16)
    requires |c| == REPORT_SIZE && key > 0xFF
    ensures DeleteUsage(c, key) == c
  {
    forall i | 1 <= i < REPORT_SIZE
      ensures ByteWithout(c, key, i) == c[i]
    {
      WideNeverMatches(c, PairOf(i), key);
    }
  }

  lemma NarrowTapContents(c: Report, key: bv16)
    requires |c| == REPORT_SIZE && key <= 0xFF
    ensures !HasPair(c, key) || key == 0 ==> TapUsageContents(c, key) == c
    ensures HasPair(c, key) && key != 0 ==> TapUsageContents(c, key) != c
  {
    if HasRoomForUsage(c, key) {
      NarrowTapInRoom(c, key);
    } else {
      NarrowTapWithoutRoom(c, key);
    }
  }

  lemma NarrowTapWithoutRoom(c: Report, key: bv16)
    requires |c| == REPORT_SIZE && key <= 0xFF && !HasRoomForUsage(c, key)
    ensures !HasPair(c, key) || key == 0 ==> TapUsageContents(c, key) == c
    ensures HasPair(c, key) && key != 0 ==> TapUsageContents(c, key) != c
  {
    if !HasPair(c, key) || key == 0 {
      forall i | 1 <= i < REPORT_SIZE
        ensures ByteWithout(c, key, i) == c[i]
      {
        assert key != 0 ==> !MatchesPair(c, PairOf(i), key);
      }
    } else {
      var i :| 1 <= i < REPORT_SIZE && i % 2 == 1 && MatchesPair(c, i, key);
      assert ByteWithout(c, key, i) != c[i];
    }
  }

  lemma NarrowTapInRoom(c: Report, key: bv16)
    requires |c| == REPORT_SIZE && key <= 0xFF && HasRoomForUsage(c, key)
    ensures !HasPair(c, key) && TapUsageContents(c, key) == c
  {
    var f := FindFreePair(c, 1);
    forall i | 1 <= i < REPORT_SIZE
      ensures ByteWithout(InsertUsage(c, key), key, i) == c[i]
    {
      if PairOf(i) != f {
        assert !MatchesPair(c, PairOf(i), key);
      }
      PlacedThenDeleted(c, key, f, i);
    }
  }

  lemma PlacedThenDeleted(c: Report, key: bv16, f: nat, i: nat)
    requires |c| == REPORT_SIZE && key <= 0xFF
    requires 1 <= f && f + 1 < REPORT_SIZE && f % 2 == 1 && FreePair(c, f)
    requires 1 <= i < REPORT_SIZE
    requires PairOf(i) != f ==> !MatchesPair(c, PairOf(i), key)
    ensures ByteWithout(c[f := Low(key)][f + 1 := High(key)], key, i) == c[i]
  {
    NarrowHalves(key);
  }

  lemma NarrowHalves(key: bv16)
    requires key <= 0xFF
    ensures High(key) == 0 && Low(key) as bv16 == key
  {
  }

  // A consumer tap leaves the report as it was exactly in these cases. For usages above
  // 0xFF it does so only when the report is already full, so such a usage stays pressed.
  lemma ConsumerTapRestoresExactly(c: Report, key: bv16)
    requires |c| == REPORT_SIZE
    ensures TapUsageContents(c, key) == c <==>
      if key > 0xFF then !HasFreePair(c) else key == 0 || !HasPair(c, key)
  {
    if key > 0xFF {
      WideTapContents(c, key);
      if i :| 1 <= i < REPORT_SIZE && i % 2 == 1 && FreePair(c, i) {
        assert FreePair(c, i) && !FreePair(InsertUsage(c, key), FindFreePair(c, 1));
      }
    } else {
      NarrowTapContents(c, key);
    }
  }

  // Between calls every occupied pair holds a usage above 0xFF.
  ghost predicate OnlyWide(c: Report)
    requires |c| == REPORT_SIZE
  {
    forall i :: 1 <= i < REPORT_SIZE && i % 2 == 1 && c[i + 1] == 0 ==> c[i] == 0
  }

  lemma TapKeepsOnlyWide(c: Report, key: bv16)
    requires |c| == REPORT_SIZE && OnlyWide(c)
    ensures OnlyWide(TapUsageContents(c, key))
    ensures key <= 0xFF ==> TapUsageContents(c, key) == c
  {
    if key > 0xFF {
      WideTapContents(c, key);
      assert High(key) != 0;
    } else {
      NarrowTapContents(c, key);
    }
  }

  // ---------------------------------------------------------------- host view

  // What the host believes after the reports sent since the last bus reset: for each
  // report ID the latest report, or an empty one.
  function HostReport(sent: seq<Report>, id: bv8): (r: Report)
    ensures |r| == REPORT_SIZE && r[0] == id
  {
    if sent == [] then Blank(id)
    else
      var last := sent[|sent| - 1];
      if |last| == REPORT_SIZE && last[0] == id then last else HostReport(sent[..|sent| - 1], id)
  }

  // The host sees the same six slots, never a modifier the device does not have, and
  // exactly the consumer report.
  ghost predicate HostAgrees(p: Port)
    requires p.Wf()
  {
    HostWith(p.sent, p)
  }

  // The same of a host that received these reports.
  ghost predicate HostWith(sent: seq<Report>, p: Port)
    requires p.Wf()
  {
    && KeyboardsAgree(HostReport(sent, KEYBOARD_ID), p.kbd)
    && HostReport(sent, CONSUMER_ID) == p.con
  }

  ghost predicate KeyboardsAgree(h: Report, k: Report)
    requires |h| == |k| == REPORT_SIZE
  {
    && (forall j :: FIRST_SLOT <= j < REPORT_SIZE ==> h[j] == k[j])
    && h[1] & !k[1] == 0
    && h[2] == 0
  }

  lemma SendKeyboardAgrees(strikes: Strikes, p: Port)
    requires p.Wf() && HostReport(p.sent, CONSUMER_ID) == p.con
    ensures HostAgrees(SendKeyboard(strikes, p))
  {
    var q := SendKeyboard(strikes, p);
    assert q.sent[..|q.sent| - 1] == AfterWait(strikes, p).sent;
    assert q.kbd[1] & !q.kbd[1] == 0;
  }

  lemma SendConsumerAgrees(strikes: Strikes, p: Port, before: Report)
    requires p.Wf() && p.(con := before).Wf() && HostAgrees(p.(con := before))
    ensures HostAgrees(SendConsumer(strikes, p))
  {
    var w := AfterWait(strikes, p);
    WaitKeepsKeyboards(strikes, p);
    ConsumerReportArrives(w.sent, w.con);
  }

  lemma WaitKeepsKeyboards(strikes: Strikes, p: Port)
    requires p.Wf() && KeyboardsAgree(HostReport(p.sent, KEYBOARD_ID), p.kbd)
    ensures var w := AfterWait(strikes, p);
            KeyboardsAgree(HostReport(w.sent, KEYBOARD_ID), w.kbd)
  {
    if strikes(p.waits) {
      assert HostReport([], KEYBOARD_ID) == Blank(KEYBOARD_ID);
    }
  }

  lemma ConsumerReportArrives(sent: seq<Report>, c: Report)
    requires |c| == REPORT_SIZE && c[0] == CONSUMER_ID
    ensures HostReport(sent + [c], CONSUMER_ID) == c
    ensures HostReport(sent + [c], KEYBOARD_ID) == HostReport(sent, KEYBOARD_ID)
  {
    assert (sent + [c])[..|sent|] == sent;
  }

  lemma PressAgrees(strikes: Strikes, p: Port, mod: bv8, code: bv8)
    requires p.Wf() && HostAgrees(p)
    ensures HostAgrees(Press(strikes, p, mod, code))
  {
    if code != 0 {
      if HasRoomFor(Merge(p.kbd, mod), code) {
        SendKeyboardAgrees(strikes, p.(kbd := Insert(p.kbd, mod, code)));
      } else {
        MoreModifiersStillAgree(HostReport(p.sent, KEYBOARD_ID)[1], p.kbd[1], mod);
      }
    }
  }

  lemma MoreModifiersStillAgree(h: bv8, m: bv8, more: bv8)
    requires h & !m == 0
    ensures h & !(m | more) == 0
  {
  }

  lemma TapAgrees(strikes: Strikes, p: Port, mod: bv8, code: bv8)
    requires p.Wf() && HostAgrees(p)
    ensures HostAgrees(Tap(strikes, p, mod, code))
  {
    PressAgrees(strikes, p, mod, code);
    ReleaseAgrees(strikes, Press(strikes, p, mod, code), mod, code);
  }

  lemma ReleaseAgrees(strikes: Strikes, p: Port, mod: bv8, code: bv8)
    requires p.Wf() && HostAgrees(p)
    ensures HostAgrees(Release(strikes, p, mod, code))
  {
    if code != 0 {
      SendKeyboardAgrees(strikes, p.(kbd := Delete(p.kbd, mod, code)));
    }
  }

  lemma ReleaseAllAgrees(strikes: Strikes, p: Port)
    requires p.Wf() && HostAgrees(p)
    ensures HostAgrees(ReleaseAll(strikes, p))
  {
    SendKeyboardAgrees(strikes, p.(kbd := Blank(KEYBOARD_ID)));
    var k := ReleaseKeyboard(strikes, p);
    assert k.(con := Blank(CONSUMER_ID)).(con := k.con) == k;
    SendConsumerAgrees(strikes, k.(con := Blank(CONSUMER_ID)), k.con);
  }

  lemma TapUsageAgrees(strikes: Strikes, p: Port, key: bv16)
    requires p.Wf() && HostAgrees(p)
    ensures HostAgrees(TapUsage(strikes, p, key))
  {
    if HasRoomForUsage(p.con, key) {
      var c := InsertUsage(p.con, key);
      assert p.(con := c).(con := p.con) == p;
      SendConsumerAgrees(strikes, p.(con := c), p.con);
    }
    var q := PressUsage(strikes, p, key);
    var d := DeleteUsage(q.con, key);
    assert q.(con := d).(con := q.con) == q;
    SendConsumerAgrees(strikes, q.(con := d), q.con);
  }

  lemma BusResetAgrees(p: Port)
    requires p.Wf()
    ensures HostAgrees(BusReset(p))
  {
  }
}
