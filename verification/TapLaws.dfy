/**
 What the host is shown: the very reports that presses, releases and taps of
 include/usb_conkbd.c send, and those of whole triggers of include/input_actions.c.
 */
module TapLaws {
  import opened Wrappers
  import opened Keyboard
  import opened KeyboardLaws
  import opened Actions
  import opened ActionLaws

  // ---------------------------------------------------------------- one call, byte by byte

  // What a bus reset during the wait of a send leaves: the only report the host then gets
  // is an empty one of that kind.
  function Struck(p: Port, id: bv8): Port {
    Port(Blank(KEYBOARD_ID), Blank(CONSUMER_ID), [Blank(id)], p.waits + 1)
  }

  // A keyboard report k takes the place of the old one and is sent.
  function Shown(p: Port, k: Report): Port {
    p.(kbd := k, sent := p.sent + [k], waits := p.waits + 1)
  }

  ghost predicate FirstFree(k: Report, s: nat)
    requires |k| == REPORT_SIZE
  {
    FIRST_SLOT <= s < REPORT_SIZE && k[s] == 0 && forall j :: FIRST_SLOT <= j < s ==> k[j] != 0
  }

  // A press with no slot to take only merges its modifiers, and sends nothing.
  lemma PressWithoutRoom(strikes: Strikes, p: Port, mod: bv8, code: bv8)
    requires p.Wf() && code != 0 && (InSlots(p.kbd, code) || !InSlots(p.kbd, 0))
    ensures Press(strikes, p, mod, code) == p.(kbd := p.kbd[1 := p.kbd[1] | mod])
  {
    RoomDecides(p.kbd, mod, code);
  }

  // Any other puts the code into the first free slot and sends the report.
  lemma PressInRoom(strikes: Strikes, p: Port, mod: bv8, code: bv8) returns (s: nat, pressed: Report)
    requires p.Wf() && code != 0 && !InSlots(p.kbd, code) && InSlots(p.kbd, 0)
    ensures Added(p.kbd, pressed, mod, code, s)
    ensures Press(strikes, p, mod, code) ==
      if strikes(p.waits) then Struck(p, KEYBOARD_ID) else Shown(p, pressed)
  {
    var m := Merge(p.kbd, mod);
    RoomDecides(p.kbd, mod, code);
    s, pressed := FindSlot(m, 0, FIRST_SLOT), Insert(p.kbd, mod, code);
    assert forall j :: FIRST_SLOT <= j < s ==> p.kbd[j] == m[j] != 0;
    SendsShown(strikes, p, pressed);
  }

  // The code takes the first free slot and the modifiers are added, nothing else.
  ghost predicate Added(k: Report, r: Report, mod: bv8, code: bv8, s: nat)
    requires |k| == REPORT_SIZE
  {
    FirstFree(k, s) && r == k[1 := k[1] | mod][s := code]
  }

  lemma SendsShown(strikes: Strikes, p: Port, k: Report)
    requires p.Wf() && p.(kbd := k).Wf()
    ensures SendKeyboard(strikes, p.(kbd := k)) ==
      if strikes(p.waits) then Struck(p, KEYBOARD_ID) else Shown(p, k)
  {
  }

  // The modifiers and every slot with the code are cleared, nothing else.
  ghost predicate Removed(k: Report, r: Report, mod: bv8, code: bv8)
    requires |k| == REPORT_SIZE
  {
    && |r| == REPORT_SIZE && r[0] == k[0] && r[1] == k[1] & !mod && r[2] == k[2]
    && forall j :: FIRST_SLOT <= j < REPORT_SIZE ==> r[j] == if k[j] == code then 0 else k[j]
  }

  lemma ReleaseExactly(strikes: Strikes, p: Port, mod: bv8, code: bv8) returns (k: Report)
    requires p.Wf() && code != 0
    ensures Removed(p.kbd, k, mod, code)
    ensures Release(strikes, p, mod, code) ==
      if strikes(p.waits) then Struck(p, KEYBOARD_ID) else Shown(p, k)
  {
    k := Delete(p.kbd, mod, code);
    SendsShown(strikes, p, k);
  }

  // Code 0 names no key.
  lemma NoKeyNoCall(strikes: Strikes, p: Port, mod: bv8)
    requires p.Wf()
    ensures Press(strikes, p, mod, 0) == Release(strikes, p, mod, 0) == Tap(strikes, p, mod, 0) == p
  {
  }

  // A tap with a slot to take shows its key: one report with the code in the first free
  // slot and the modifiers added, then one without them.
  lemma TapShowsItsKey(strikes: Strikes, p: Port, mod: bv8, code: bv8)
    returns (s: nat, pressed: Report, k: Report)
    requires p.Wf() && code != 0 && !InSlots(p.kbd, code) && InSlots(p.kbd, 0)
    requires !strikes(p.waits) && !strikes(p.waits + 1)
    ensures Added(p.kbd, pressed, mod, code, s) && Removed(p.kbd, k, mod, code)
    ensures Tap(strikes, p, mod, code) == p.(kbd := k, sent := p.sent + [pressed, k], waits := p.waits + 2)
  {
    s, pressed := PressInRoom(strikes, p, mod, code);
    k := ReleaseExactly(strikes, Shown(p, pressed), mod, code);
    AddedThenRemoved(p.kbd, pressed, k, mod, code, s);
    assert p.sent + [pressed] + [k] == p.sent + [pressed, k];
  }

  lemma AddedThenRemoved(k: Report, pressed: Report, r: Report, mod: bv8, code: bv8, s: nat)
    requires |k| == REPORT_SIZE && Added(k, pressed, mod, code, s)
    requires Removed(pressed, r, mod, code) && !InSlots(k, code) && code != 0
    ensures Removed(k, r, mod, code)
  {
    BitsAddedThenRemoved(k[1], mod);
    assert forall j :: FIRST_SLOT <= j < REPORT_SIZE && j != s ==> pressed[j] == k[j];
  }

  lemma BitsAddedThenRemoved(m: bv8, mod: bv8)
    ensures (m | mod) & !mod == m & !mod
  {
  }

  // With no slot to take the host is shown the release only.
  lemma TapWithoutRoom(strikes: Strikes, p: Port, mod: bv8, code: bv8) returns (k: Report)
    requires p.Wf() && code != 0 && (InSlots(p.kbd, code) || !InSlots(p.kbd, 0)) && !strikes(p.waits)
    ensures Removed(p.kbd, k, mod, code)
    ensures Tap(strikes, p, mod, code) == Shown(p, k)
  {
    var merged := p.kbd[1 := p.kbd[1] | mod];
    PressWithoutRoom(strikes, p, mod, code);
    k := ReleaseExactly(strikes, p.(kbd := merged), mod, code);
    BitsAddedThenRemoved(p.kbd[1], mod);
    assert forall j :: FIRST_SLOT <= j < REPORT_SIZE ==> merged[j] == p.kbd[j];
  }

  // ---------------------------------------------------------------- sequences, as chords

  // The chords a tap shows from a chord c.
  function TapChords(c: Chord, mod: bv8, code: bv8): seq<Chord> {
    if code == 0 then []
    else
      (if code !in c.keys && |c.keys| < CAPACITY then [c.Press(mod, code)] else []) + [c.Release(mod, code)]
  }

  // Those of steps i to n-1, one step after the other.
  function StepChords(c: Chord, b: Binding, i: nat, n: nat): seq<Chord>
    requires b.Wf() && i <= n <= MAX_STEPS
    decreases n - i
  {
    if i == n then []
    else
      TapChords(c, b.modifier[i], b.usage[i]) + StepChords(c.Release(b.modifier[i], b.usage[i]), b, i + 1, n)
  }

  function StepsChord(c: Chord, b: Binding, i: nat, n: nat): Chord
    requires b.Wf() && i <= n <= MAX_STEPS
    decreases n - i
  {
    if i == n then c else StepsChord(c.Release(b.modifier[i], b.usage[i]), b, i + 1, n)
  }

  // The report has the keyboard's ID and shows the chord.
  ghost predicate ShowsChord(r: Report, c: Chord) {
    |r| == REPORT_SIZE && r[0] == 1 && r[2] == 0 && ChordOf(r) == c
  }

  ghost predicate AllShow(reports: seq<Report>, chords: seq<Chord>) {
    |reports| == |chords| && forall j :: 0 <= j < |reports| ==> ShowsChord(reports[j], chords[j])
  }

  // From p to q exactly these reports were sent, which show these chords, each after one
  // wait, and nothing but the keyboard report changed.
  ghost predicate Showed(p: Port, q: Port, chords: seq<Chord>, reports: seq<Report>) {
    && q.con == p.con && q.sent == p.sent + reports && q.waits == p.waits + |chords|
    && AllShow(reports, chords)
  }

  ghost predicate Holds(p: Port, c: Chord) {
    p.Wf() && Distinct(p.kbd) && ChordOf(p.kbd) == c
  }

  lemma RemovedChord(k: Report, r: Report, mod: bv8, code: bv8)
    requires |k| == REPORT_SIZE && Distinct(k) && code != 0 && k[0] == 1 && k[2] == 0
    requires Removed(k, r, mod, code)
    ensures Distinct(r) && ShowsChord(r, ChordOf(k).Release(mod, code))
  {
    assert r == Delete(k, mod, code);
    DeleteIsSetRemoval(k, mod, code);
  }

  lemma PressedChord(k: Report, r: Report, mod: bv8, code: bv8, s: nat)
    requires |k| == REPORT_SIZE && Distinct(k) && code != 0 && k[0] == 1 && k[2] == 0
    requires Added(k, r, mod, code, s) && !InSlots(k, code)
    ensures ShowsChord(r, ChordOf(k).Press(mod, code))
  {
    assert Inserted(k, r, mod, code, s);
    InsertedChord(k, r, mod, code, s);
  }

  lemma RoomInChord(k: Report, code: bv8)
    requires |k| == REPORT_SIZE && Distinct(k) && code != 0
    ensures !InSlots(k, code) && InSlots(k, 0) <==>
            code !in ChordOf(k).keys && |ChordOf(k).keys| < CAPACITY
  {
    KeysFromMembers(k, FIRST_SLOT, code);
    SizeDecides(k);
  }

  lemma TapShows(strikes: Strikes, p: Port, c: Chord, mod: bv8, code: bv8) returns (reports: seq<Report>)
    requires Holds(p, c) && Calm(strikes, p.waits, |TapChords(c, mod, code)|)
    ensures Showed(p, Tap(strikes, p, mod, code), TapChords(c, mod, code), reports)
    ensures Holds(Tap(strikes, p, mod, code), c.Release(mod, code))
  {
    if code == 0 {
      reports := [];
      assert p.sent + [] == p.sent;
    } else {
      RoomInChord(p.kbd, code);
      if !InSlots(p.kbd, code) && InSlots(p.kbd, 0) {
        reports := RoomyTapShows(strikes, p, c, mod, code);
      } else {
        reports := FullTapShows(strikes, p, c, mod, code);
      }
    }
  }

  lemma FullTapShows(strikes: Strikes, p: Port, c: Chord, mod: bv8, code: bv8) returns (reports: seq<Report>)
    requires Holds(p, c) && code != 0 && (InSlots(p.kbd, code) || !InSlots(p.kbd, 0))
    requires Calm(strikes, p.waits, 1)
    ensures Showed(p, Tap(strikes, p, mod, code), [] + [c.Release(mod, code)], reports)
    ensures Holds(Tap(strikes, p, mod, code), c.Release(mod, code))
  {
    CalmAt(strikes, p.waits, 1, 0);
    var k := TapWithoutRoom(strikes, p, mod, code);
    RemovedChord(p.kbd, k, mod, code);
    reports := [k];
  }

  // No reset strikes in the k waits from number lo on.
  ghost predicate Calm(strikes: Strikes, lo: nat, k: nat) {
    !StruckBetween(strikes, lo, lo + k)
  }

  lemma CalmAt(strikes: Strikes, lo: nat, k: nat, n: nat)
    requires Calm(strikes, lo, k) && n < k
    ensures !strikes(lo + n)
  {
  }

  lemma CalmSplits(strikes: Strikes, lo: nat, a: nat, b: nat)
    requires Calm(strikes, lo, a + b)
    ensures Calm(strikes, lo, a) && Calm(strikes, lo + a, b)
  {
  }

  lemma RoomyTapShows(strikes: Strikes, p: Port, c: Chord, mod: bv8, code: bv8) returns (reports: seq<Report>)
    requires Holds(p, c) && code != 0 && !InSlots(p.kbd, code) && InSlots(p.kbd, 0)
    requires Calm(strikes, p.waits, 2)
    ensures Showed(p, Tap(strikes, p, mod, code), [c.Press(mod, code)] + [c.Release(mod, code)], reports)
    ensures Holds(Tap(strikes, p, mod, code), c.Release(mod, code))
  {
    CalmAt(strikes, p.waits, 2, 0);
    CalmAt(strikes, p.waits, 2, 1);
    var s, pressed, k := TapShowsItsKey(strikes, p, mod, code);
    PressedChord(p.kbd, pressed, mod, code, s);
    RemovedChord(p.kbd, k, mod, code);
    reports := [pressed, k];
    TwoShow(pressed, k, c.Press(mod, code), c.Release(mod, code));
    SentBoth(p, Tap(strikes, p, mod, code), pressed, k, c.Press(mod, code), c.Release(mod, code));
  }

  lemma TwoShow(r: Report, k: Report, c: Chord, d: Chord)
    requires ShowsChord(r, c) && ShowsChord(k, d)
    ensures AllShow([r, k], [c] + [d])
  {
  }

  lemma SentBoth(p: Port, q: Port, pressed: Report, k: Report, c: Chord, d: Chord)
    requires p.Wf() && q == p.(kbd := k, sent := p.sent + [pressed, k], waits := p.waits + 2)
    requires AllShow([pressed, k], [c] + [d]) && ShowsChord(k, d) && Distinct(k)
    ensures Showed(p, q, [c] + [d], [pressed, k]) && Holds(q, d)
  {
  }

  // Of a whole sequence the host is shown every step's press and then its release, in the
  // order of the steps: a press whenever the code is not held already and there is room.
  lemma {:induction false} SequenceShows(strikes: Strikes, p: Port, c: Chord, b: Binding, i: nat, n: nat)
    returns (reports: seq<Report>)
    requires Holds(p, c) && b.Wf() && i <= n <= MAX_STEPS
    requires Calm(strikes, p.waits, |StepChords(c, b, i, n)|)
    ensures Showed(p, TapSteps(strikes, p, b, i, n), StepChords(c, b, i, n), reports)
    ensures Holds(TapSteps(strikes, p, b, i, n), StepsChord(c, b, i, n))
    decreases n - i
  {
    reports := [];
    if i == n {
      assert p.sent + [] == p.sent;
    } else {
      var mid := c.Release(b.modifier[i], b.usage[i]);
      var first, rest := TapChords(c, b.modifier[i], b.usage[i]), StepChords(mid, b, i + 1, n);
      CalmSplits(strikes, p.waits, |first|, |rest|);
      var t, shown, more := StepThenRest(strikes, p, c, mid, b, i, n);
      reports := shown + more;
      ShowedTwice(p, t, TapSteps(strikes, p, b, i, n), first, rest, shown, more);
    }
  }

  lemma {:induction false} StepThenRest(strikes: Strikes, p: Port, c: Chord, mid: Chord, b: Binding, i: nat, n: nat)
    returns (t: Port, shown: seq<Report>, more: seq<Report>)
    requires Holds(p, c) && b.Wf() && i < n <= MAX_STEPS && mid == c.Release(b.modifier[i], b.usage[i])
    requires Calm(strikes, p.waits, |TapChords(c, b.modifier[i], b.usage[i])|)
    requires Calm(strikes, p.waits + |TapChords(c, b.modifier[i], b.usage[i])|, |StepChords(mid, b, i + 1, n)|)
    ensures Showed(p, t, TapChords(c, b.modifier[i], b.usage[i]), shown)
    ensures Showed(t, TapSteps(strikes, p, b, i, n), StepChords(mid, b, i + 1, n), more)
    ensures Holds(TapSteps(strikes, p, b, i, n), StepsChord(mid, b, i + 1, n))
    decreases n - i, 0
  {
    t, shown := FirstStepShows(strikes, p, c, mid, b, i, n);
    more := SequenceShows(strikes, t, mid, b, i + 1, n);
  }

  lemma FirstStepShows(strikes: Strikes, p: Port, c: Chord, mid: Chord, b: Binding, i: nat, n: nat)
    returns (t: Port, shown: seq<Report>)
    requires Holds(p, c) && b.Wf() && i < n <= MAX_STEPS && mid == c.Release(b.modifier[i], b.usage[i])
    requires Calm(strikes, p.waits, |TapChords(c, b.modifier[i], b.usage[i])|)
    ensures Holds(t, mid) && Showed(p, t, TapChords(c, b.modifier[i], b.usage[i]), shown)
    ensures t.waits == p.waits + |TapChords(c, b.modifier[i], b.usage[i])|
    ensures TapSteps(strikes, p, b, i, n) == TapSteps(strikes, t, b, i + 1, n)
  {
    shown := TapShows(strikes, p, c, b.modifier[i], b.usage[i]);
    t := Tap(strikes, p, b.modifier[i], b.usage[i]);
  }

  lemma ShowedTwice(p: Port, t: Port, q: Port, first: seq<Chord>, rest: seq<Chord>,
                    shown: seq<Report>, more: seq<Report>)
    requires Showed(p, t, first, shown) && Showed(t, q, rest, more)
    ensures Showed(p, q, first + rest, shown + more)
  {
    OneAfterOther(p.sent, shown, more);
    AllShowBoth(shown, more, first, rest);
  }

  lemma AllShowBoth(r: seq<Report>, s: seq<Report>, c: seq<Chord>, d: seq<Chord>)
    requires AllShow(r, c) && AllShow(s, d)
    ensures AllShow(r + s, c + d)
  {
  }

  lemma OneAfterOther(a: seq<Report>, b: seq<Report>, c: seq<Report>)
    ensures a + b + c == a + (b + c)
  {
  }

  // ---------------------------------------------------------------- sequences, from nothing held

  // A key alone, and nothing.
  function KeyAlone(mod: bv8, code: bv8): (r: seq<Report>)
    ensures |r| == 2
  {
    [[1, mod, 0, code, 0, 0, 0, 0, 0], [1, 0, 0, 0, 0, 0, 0, 0, 0]]
  }

  // The reports that type steps i to n-1 when nothing is held.
  function Typed(b: Binding, i: nat, n: nat): seq<Report>
    requires b.Wf() && i <= n <= MAX_STEPS
    decreases n - i
  {
    if i == n then []
    else
      (if b.usage[i] == 0 then [] else KeyAlone(b.modifier[i], b.usage[i])) + Typed(b, i + 1, n)
  }

  lemma TapTypes(strikes: Strikes, p: Port, mod: bv8, code: bv8)
    requires p.Wf() && p.kbd == Blank(KEYBOARD_ID) && code != 0
    requires !strikes(p.waits) && !strikes(p.waits + 1)
    ensures Tap(strikes, p, mod, code) == p.(sent := p.sent + KeyAlone(mod, code), waits := p.waits + 2)
  {
    assert p.kbd[FIRST_SLOT] == 0;
    var s, pressed, k := TapShowsItsKey(strikes, p, mod, code);
    KeyIntoBlank(p.kbd, pressed, mod, code, s);
    NothingLeft(p.kbd, k, mod, code);
  }

  lemma KeyIntoBlank(k: Report, r: Report, mod: bv8, code: bv8, s: nat)
    requires k == Blank(KEYBOARD_ID) && Added(k, r, mod, code, s)
    ensures r == [1, mod, 0, code, 0, 0, 0, 0, 0]
  {
    assert k[FIRST_SLOT] == 0;
    NoBits(mod);
  }

  lemma NothingLeft(k: Report, r: Report, mod: bv8, code: bv8)
    requires k == Blank(KEYBOARD_ID) && Removed(k, r, mod, code)
    ensures r == [1, 0, 0, 0, 0, 0, 0, 0, 0] == k
  {
    NoBits(mod);
  }

  lemma NoBits(mod: bv8)
    ensures 0 | mod == mod && 0 & !mod == 0
  {
  }

  // A sequence started with nothing held types exactly its naming steps.
  lemma {:induction false} SequenceTypes(strikes: Strikes, p: Port, b: Binding, i: nat, n: nat)
    requires p.Wf() && p.kbd == Blank(KEYBOARD_ID) && b.Wf() && i <= n <= MAX_STEPS
    requires Calm(strikes, p.waits, |Typed(b, i, n)|)
    ensures TapSteps(strikes, p, b, i, n) ==
      p.(sent := p.sent + Typed(b, i, n), waits := p.waits + |Typed(b, i, n)|)
    decreases n - i
  {
    if i == n {
      assert p.sent + [] == p.sent;
    } else {
      var rest := Typed(b, i + 1, n);
      if b.usage[i] == 0 {
        assert [] + rest == rest;
        SequenceTypes(strikes, p, b, i + 1, n);
      } else {
        var t := Tap(strikes, p, b.modifier[i], b.usage[i]);
        CalmSplits(strikes, p.waits, 2, |rest|);
        CalmAt(strikes, p.waits, 2, 0);
        CalmAt(strikes, p.waits, 2, 1);
        TapTypes(strikes, p, b.modifier[i], b.usage[i]);
        SequenceTypes(strikes, t, b, i + 1, n);
        OneAfterOther(p.sent, KeyAlone(b.modifier[i], b.usage[i]), rest);
      }
    }
  }

  // ---------------------------------------------------------------- consumer usages

  function ShownUsage(p: Port, c: Report): Port {
    p.(con := c, sent := p.sent + [c], waits := p.waits + 1)
  }

  ghost predicate FirstFreePair(c: Report, f: nat)
    requires |c| == REPORT_SIZE
  {
    && 1 <= f && f + 1 < REPORT_SIZE && f % 2 == 1 && FreePair(c, f)
    && forall j :: 1 <= j < f && j % 2 == 1 ==> !FreePair(c, j)
  }

  lemma PressUsageWithoutRoom(strikes: Strikes, p: Port, key: bv16)
    requires p.Wf() && (HasPair(p.con, key) || !HasFreePair(p.con))
    ensures PressUsage(strikes, p, key) == p
  {
    if HasPair(p.con, key) {
      var i :| 1 <= i < REPORT_SIZE && i % 2 == 1 && MatchesPair(p.con, i, key);
      assert FindPair(p.con, key, 1) <= i;
    }
  }

  // The low byte of the usage comes first.
  lemma PressUsageInRoom(strikes: Strikes, p: Port, key: bv16) returns (f: nat)
    requires p.Wf() && !HasPair(p.con, key) && HasFreePair(p.con)
    ensures FirstFreePair(p.con, f)
    ensures PressUsage(strikes, p, key) ==
      if strikes(p.waits) then Struck(p, CONSUMER_ID)
      else ShownUsage(p, p.con[f := (key & 0xFF) as bv8][f + 1 := (key >> 8) as bv8])
  {
    f := FindFreePair(p.con, 1);
    var i :| 1 <= i < REPORT_SIZE && i % 2 == 1 && FreePair(p.con, i);
    assert f <= i;
    assert FindPair(p.con, key, 1) == REPORT_SIZE;
  }

  lemma ReleaseUsageShows(strikes: Strikes, p: Port, key: bv16)
    requires p.Wf()
    ensures ReleaseUsage(strikes, p, key) ==
      if strikes(p.waits) then Struck(p, CONSUMER_ID) else ShownUsage(p, DeleteUsage(p.con, key))
  {
  }

  function UsageReport(low: bv8, high: bv8): Report {
    [2, low, high, 0, 0, 0, 0, 0, 0]
  }

  ghost predicate Halves(key: bv16, low: bv8, high: bv8) {
    low == (key & 0xFF) as bv8 && high == (key >> 8) as bv8
  }

  // From an empty consumer report a tap shows the usage and then the report without it, or
  // with it when the usage is above 0xFF and so is not found again.
  lemma TapUsageShows(strikes: Strikes, p: Port, key: bv16, low: bv8, high: bv8)
    requires p.Wf() && p.con == Blank(CONSUMER_ID) && key != 0 && Halves(key, low, high)
    requires !strikes(p.waits) && !strikes(p.waits + 1)
    ensures var c, r := UsageReport(low, high), UsageReport(if high != 0 then low else 0, high);
            TapUsage(strikes, p, key) == p.(con := r, sent := p.sent + [c, r], waits := p.waits + 2)
  {
    var blank, c := Blank(CONSUMER_ID), UsageReport(low, high);
    assert FreePair(blank, 1);
    NothingMatchesBlank(key);
    var f := PressUsageInRoom(strikes, p, key);
    assert f == 1 && blank[1 := low][2 := high] == c;
    ReleaseUsageShows(strikes, ShownUsage(p, c), key);
    UsageRemoved(key, low, high);
    assert p.sent + [c] + [DeleteUsage(c, key)] == p.sent + [c, DeleteUsage(c, key)];
  }

  lemma NothingMatchesBlank(key: bv16)
    requires key != 0
    ensures !HasPair(Blank(CONSUMER_ID), key)
  {
  }

  lemma UsageRemoved(key: bv16, low: bv8, high: bv8)
    requires key != 0 && Halves(key, low, high)
    ensures DeleteUsage(UsageReport(low, high), key) == UsageReport(if high != 0 then low else 0, high)
  {
    var c := UsageReport(low, high);
    HighHalf(key, high);
    if key > 0xFF {
      DeleteWideNothing(c, key);
    } else {
      NarrowHalves(key);
      assert MatchesPair(c, 1, key);
      assert DeleteUsage(c, key) == UsageReport(0, 0);
    }
  }

  lemma HighHalf(key: bv16, high: bv8)
    requires high == (key >> 8) as bv8
    ensures high != 0 <==> key > 0xFF
  {
  }

  // ---------------------------------------------------------------- controls

  // Triggering a control with a keyboard binding (kind 1) shows the host its steps, at most
  // five and at most as many as its count says.
  lemma KeyboardTriggerShows(strikes: Strikes, d: Device, control: nat, c: Chord, n: nat) returns (reports: seq<Report>)
    requires d.Wf() && control < 9 && d.table[control].kind == 1 && Holds(d.port, c)
    requires n == (if d.table[control].count < 5 then d.table[control].count as nat else 5)
    requires Calm(strikes, d.port.waits, |StepChords(c, d.table[control], 0, n)|)
    ensures var e := TriggerControl(strikes, d, control);
            e.table == d.table && Holds(e.port, StepsChord(c, d.table[control], 0, n))
            && Showed(d.port, e.port, StepChords(c, d.table[control], 0, n), reports)
  {
    CountOf(d.table[control]);
    reports := SequenceShows(strikes, d.port, c, d.table[control], 0, n);
  }

  lemma CountOf(b: Binding)
    ensures Steps(b) == if b.count < 5 then b.count as nat else 5
  {
  }

  // With nothing held it types each step that names a key, and nothing else.
  lemma KeyboardTriggerTypes(strikes: Strikes, d: Device, control: nat, n: nat)
    requires d.Wf() && control < 9 && d.table[control].kind == 1 && d.port.kbd == Blank(KEYBOARD_ID)
    requires n == (if d.table[control].count < 5 then d.table[control].count as nat else 5)
    requires Calm(strikes, d.port.waits, |Typed(d.table[control], 0, n)|)
    ensures var t := Typed(d.table[control], 0, n);
            TriggerControl(strikes, d, control) ==
            d.(port := d.port.(sent := d.port.sent + t, waits := d.port.waits + |t|))
  {
    CountOf(d.table[control]);
    SequenceTypes(strikes, d.port, d.table[control], 0, n);
  }

  // A consumer binding (kind 2) with an empty consumer report shows its usage, low byte
  // first, and takes it back unless its high byte is set.
  lemma ConsumerTriggerShows(strikes: Strikes, d: Device, control: nat)
    requires d.Wf() && control < 9 && d.table[control].kind == 2 && d.table[control].count != 0
    requires d.table[control].usage[0] != 0 || d.table[control].modifier[0] != 0
    requires d.port.con == Blank(CONSUMER_ID) && !strikes(d.port.waits) && !strikes(d.port.waits + 1)
    ensures var low, high := d.table[control].usage[0], d.table[control].modifier[0];
            var c, r := UsageReport(low, high), UsageReport(if high != 0 then low else 0, high);
            TriggerControl(strikes, d, control) ==
            d.(port := d.port.(con := r, sent := d.port.sent + [c, r], waits := d.port.waits + 2))
  {
    var key := ConsumerTaps(strikes, d, control);
    TapUsageShows(strikes, d.port, key, d.table[control].usage[0], d.table[control].modifier[0]);
  }

  lemma ConsumerTaps(strikes: Strikes, d: Device, control: nat) returns (key: bv16)
    requires d.Wf() && control < 9 && d.table[control].kind == 2 && d.table[control].count != 0
    ensures Halves(key, d.table[control].usage[0], d.table[control].modifier[0])
    ensures key != 0 <==> d.table[control].modifier[0] != 0 || d.table[control].usage[0] != 0
    ensures TriggerControl(strikes, d, control) == d.(port := TapUsage(strikes, d.port, key))
  {
    key := ConsumerUsage(d.table[control]);
    ConsumerHalves(d.table[control], d.table[control].modifier[0], d.table[control].usage[0]);
    ConsumerNamed(d.table[control], d.table[control].modifier[0], d.table[control].usage[0]);
  }

  lemma ConsumerHalves(b: Binding, high: bv8, low: bv8)
    requires b.Wf() && high == b.modifier[0] && low == b.usage[0]
    ensures Halves(ConsumerUsage(b), low, high)
  {
    JoinedUsage(high, low);
  }

  lemma ConsumerNamed(b: Binding, high: bv8, low: bv8)
    requires b.Wf() && high == b.modifier[0] && low == b.usage[0]
    ensures ConsumerUsage(b) != 0 <==> high != 0 || low != 0
  {
    JoinedNothing(high, low);
  }

  lemma JoinedUsage(high: bv8, low: bv8)
    ensures Halves(((high as bv16) << 8) | low as bv16, low, high)
  {
  }

  lemma JoinedNothing(high: bv8, low: bv8)
    ensures ((high as bv16) << 8) | low as bv16 != 0 <==> high != 0 || low != 0
  {
  }

  lemma OtherTriggersDoNothing(strikes: Strikes, d: Device, control: nat)
    requires d.Wf()
    requires control >= 9 || d.table[control].count == 0 || !(1 <= d.table[control].kind <= 2)
    ensures TriggerControl(strikes, d, control) == d
  {
  }

  // The control is bound as a hold (kind 4) with a step.
  predicate BoundAsHold(d: Device, control: nat)
    requires |d.table| == CONTROL_COUNT
  {
    control < 9 && d.table[control].kind == 4 && d.table[control].count != 0
  }

  // Pressing a hold shows its key and keeps it.
  lemma HoldShowsItsKey(strikes: Strikes, d: Device, control: nat) returns (s: nat, pressed: Report)
    requires d.Wf() && BoundAsHold(d, control) && d.table[control].usage[0] != 0
    requires !InSlots(d.port.kbd, d.table[control].usage[0]) && InSlots(d.port.kbd, 0)
    ensures Added(d.port.kbd, pressed, d.table[control].modifier[0], d.table[control].usage[0], s)
    ensures PressControl(strikes, d, control) ==
      d.(port := if strikes(d.port.waits) then Struck(d.port, KEYBOARD_ID) else Shown(d.port, pressed))
  {
    s, pressed := PressInRoom(strikes, d.port, d.table[control].modifier[0], d.table[control].usage[0]);
  }

  // Releasing it shows the report without that key and without its modifiers.
  lemma HoldReleaseShows(strikes: Strikes, d: Device, control: nat) returns (k: Report)
    requires d.Wf() && BoundAsHold(d, control) && d.table[control].usage[0] != 0
    ensures Removed(d.port.kbd, k, d.table[control].modifier[0], d.table[control].usage[0])
    ensures ReleaseControl(strikes, d, control) ==
      d.(port := if strikes(d.port.waits) then Struck(d.port, KEYBOARD_ID) else Shown(d.port, k))
  {
    k := ReleaseExactly(strikes, d.port, d.table[control].modifier[0], d.table[control].usage[0]);
  }

  // For every other control a press is a trigger and a release does nothing.
  lemma OnlyHoldsAreHeld(strikes: Strikes, d: Device, control: nat)
    requires d.Wf() && !BoundAsHold(d, control)
    ensures PressControl(strikes, d, control) == TriggerControl(strikes, d, control)
    ensures ReleaseControl(strikes, d, control) == d
  {
  }

  // ---------------------------------------------------------------- clearing everything

  // Both reports are emptied and sent, keyboard first, and the host holds nothing, wherever
  // a reset strikes.
  lemma ReleaseAllEmpties(strikes: Strikes, p: Port)
    requires p.Wf()
    ensures var q, k, c := ReleaseAll(strikes, p), Blank(KEYBOARD_ID), Blank(CONSUMER_ID);
            q.kbd == k && q.con == c && q.waits == p.waits + 2
            && q.sent == (if strikes(p.waits + 1) then [c] else if strikes(p.waits) then [k, c] else p.sent + [k, c])
            && HostReport(q.sent, KEYBOARD_ID) == k && HostReport(q.sent, CONSUMER_ID) == c
  {
    var m := ReleaseKeyboard(strikes, p);
    assert m.sent == (if strikes(p.waits) then [Blank(KEYBOARD_ID)] else p.sent + [Blank(KEYBOARD_ID)]);
    var q := ReleaseAll(strikes, p);
    if strikes(p.waits + 1) {
      assert q.sent == [] + [Blank(CONSUMER_ID)];
      ConsumerReportArrives([], Blank(CONSUMER_ID));
    } else {
      assert q.sent == m.sent + [Blank(CONSUMER_ID)];
      ConsumerReportArrives(m.sent, Blank(CONSUMER_ID));
    }
  }
}
