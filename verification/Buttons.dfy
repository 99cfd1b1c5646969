/** Turning snapshots of the controls into button events: one on each release, classified by how long it was held. */
module Buttons {

  /** Half a second of ticks at 16666 Hz. */
  const LONG_PRESS_TICKS := 16666 * 500 / 1000

  datatype EventType = Press | LongPress | LongRelease

  datatype Event = ButtonEvent(control: nat, kind: EventType) | EncoderEvent(encoder: nat, delta: int)

  /** A control the app listens to: its bit in the controls mask and the control it stands for. */
  datatype Mapping = Mapping(index: nat, control: nat)

  predicate IsTable(table: seq<Mapping>) {
    && (forall i :: 0 <= i < |table| ==> table[i].index < 16)
    && (forall i, j :: 0 <= i < j < |table| ==> table[i].index != table[j].index && table[i].control != table[j].control)
  }

  /** One snapshot: the controls that are down, the encoder turns, and the tick it is handled at. */
  datatype Snapshot = Snapshot(controls: bv16, encoders: (int, int), tick: nat)

  function Bit(index: nat): bv16
    requires index < 16
  {
    (1 as bv16) << index
  }

  predicate IsDown(controls: bv16, index: nat)
    requires index < 16
  {
    controls & Bit(index) != 0
  }

  /** The edge mask has a bit exactly where the two snapshots differ. */
  lemma EdgeBit(now: bv16, last: bv16, index: nat)
    requires index < 16
    ensures IsDown(now ^ last, index) <==> IsDown(now, index) != IsDown(last, index)
  {
    var b := Bit(index);
    SingleBit(index);
    OneBitXor(now, last, b);
  }

  lemma SingleBit(index: nat)
    requires index < 16
    ensures Bit(index) != 0 && Bit(index) & (Bit(index) - 1) == 0
  {
    assert Bit(0) == 0x1 && Bit(1) == 0x2 && Bit(2) == 0x4 && Bit(3) == 0x8;
    assert Bit(4) == 0x10 && Bit(5) == 0x20 && Bit(6) == 0x40 && Bit(7) == 0x80;
    assert Bit(8) == 0x100 && Bit(9) == 0x200 && Bit(10) == 0x400 && Bit(11) == 0x800;
    assert Bit(12) == 0x1000 && Bit(13) == 0x2000 && Bit(14) == 0x4000 && Bit(15) == 0x8000;
  }

  lemma OneBitXor(a: bv16, b: bv16, bit: bv16)
    requires bit != 0 && bit & (bit - 1) == 0
    ensures ((a ^ b) & bit != 0) <==> ((a & bit != 0) != (b & bit != 0))
  {
  }

  function Shifted(mask: bv16, i: nat): bv16
    requires i < 16
  {
    mask >> i
  }

  /** `bit_index`: the place of the highest bit, 0 for an empty mask. */
  method BitIndex(mask: bv16) returns (i: nat)
    ensures i < 16 && Shifted(mask, i) == if mask == 0 then 0 else 1
    ensures mask == 0 ==> i == 0
  {
    hide Shifted;
    var bit := mask;
    i := 0;
    NoShift(mask);
    while bit > 1
      invariant i < 16 && bit == Shifted(mask, i) && (mask != 0 ==> bit != 0) && (mask == 0 ==> i == 0)
      decreases 16 - i
    {
      ShiftEnds(mask, i);
      ShiftOnce(mask, i);
      Halves(bit);
      bit := bit >> 1;
      i := i + 1;
    }
    NothingBelowOne(bit);
  }

  lemma NoShift(mask: bv16)
    ensures Shifted(mask, 0) == mask
  {
  }

  lemma NothingBelowOne(bit: bv16)
    requires !(bit > 1)
    ensures bit == 0 || bit == 1
  {
  }

  lemma ShiftOnce(mask: bv16, i: nat)
    requires i < 15
    ensures Shifted(mask, i) >> 1 == Shifted(mask, i + 1)
  {
    if i == 0 { assert (mask >> 0) >> 1 == mask >> 1; }
    else if i == 1 { assert (mask >> 1) >> 1 == mask >> 2; }
    else if i == 2 { assert (mask >> 2) >> 1 == mask >> 3; }
    else if i == 3 { assert (mask >> 3) >> 1 == mask >> 4; }
    else if i == 4 { assert (mask >> 4) >> 1 == mask >> 5; }
    else if i == 5 { assert (mask >> 5) >> 1 == mask >> 6; }
    else if i == 6 { assert (mask >> 6) >> 1 == mask >> 7; }
    else if i == 7 { assert (mask >> 7) >> 1 == mask >> 8; }
    else if i == 8 { assert (mask >> 8) >> 1 == mask >> 9; }
    else if i == 9 { assert (mask >> 9) >> 1 == mask >> 10; }
    else if i == 10 { assert (mask >> 10) >> 1 == mask >> 11; }
    else if i == 11 { assert (mask >> 11) >> 1 == mask >> 12; }
    else if i == 12 { assert (mask >> 12) >> 1 == mask >> 13; }
    else if i == 13 { assert (mask >> 13) >> 1 == mask >> 14; }
    else if i == 14 { assert (mask >> 14) >> 1 == mask >> 15; }
  }

  lemma ShiftEnds(mask: bv16, i: nat)
    requires i < 16 && Shifted(mask, i) > 1
    ensures i < 15
  {
  }

  lemma Halves(bit: bv16)
    requires bit > 1
    ensures 0 < bit >> 1 < bit
  {
  }

  /** A mask of one bit has that bit as its highest. */
  lemma HighestOfBit(index: nat, i: nat)
    requires index < 16 && i < 16 && Shifted(Bit(index), i) == 1
    ensures i == index
  {
  }

  // ---- One snapshot -----------------------------------------------------------------------------

  /** The ticks between a press and a release, as 64-bit unsigned subtraction gives them. */
  function Held(now: nat, since: nat): nat {
    (now - since) % 0x1_0000_0000_0000_0000
  }

  /** The event for a release after a hold of so many ticks. */
  function Classify(held: nat, mapLongPress: bool): EventType {
    if held >= LONG_PRESS_TICKS then if mapLongPress then LongPress else LongRelease else Press
  }

  predicate Released(now: bv16, last: bv16, index: nat)
    requires index < 16
  {
    IsDown(last, index) && !IsDown(now, index)
  }

  predicate Pressed(now: bv16, last: bv16, index: nat)
    requires index < 16
  {
    IsDown(now, index) && !IsDown(last, index)
  }

  lemma ReleasedMask(now: bv16, last: bv16, index: nat)
    requires index < 16
    ensures Released(now, last, index) <==> (now ^ last) & Bit(index) != 0 && now & Bit(index) == 0
  {
    EdgeBit(now, last, index);
    hide Bit;
  }

  lemma PressedMask(now: bv16, last: bv16, index: nat)
    requires index < 16
    ensures Pressed(now, last, index) <==> (now ^ last) & Bit(index) != 0 && now & Bit(index) != 0
  {
    EdgeBit(now, last, index);
    hide Bit;
  }

  /** The event a mapped control gives at a snapshot, if any. */
  function ReleaseEvent(m: Mapping, now: Snapshot, last: bv16, heldSince: seq<nat>, mapLongPress: bool): seq<Event>
    requires m.index < 16 && |heldSince| == 16
  {
    if Released(now.controls, last, m.index) then [ButtonEvent(m.control, Classify(Held(now.tick, heldSince[m.index]), mapLongPress))]
    else []
  }

  function ReleaseEvents(table: seq<Mapping>, n: nat, now: Snapshot, last: bv16, heldSince: seq<nat>, mapLongPress: bool): seq<Event>
    requires IsTable(table) && n <= |table| && |heldSince| == 16
  {
    if n == 0 then []
    else ReleaseEvents(table, n - 1, now, last, heldSince, mapLongPress) + ReleaseEvent(table[n - 1], now, last, heldSince, mapLongPress)
  }

  function EncoderEvents(encoders: (int, int)): seq<Event> {
    (if encoders.0 != 0 then [EncoderEvent(0, encoders.0)] else []) + if encoders.1 != 0 then [EncoderEvent(1, encoders.1)] else []
  }

  /** The tick a control went down at last, after a snapshot. */
  function HeldAfter(table: seq<Mapping>, n: nat, now: Snapshot, last: bv16, heldSince: seq<nat>): (r: seq<nat>)
    requires IsTable(table) && n <= |table| && |heldSince| == 16
    ensures |r| == 16
  {
    if n == 0 then heldSince
    else
      var before := HeldAfter(table, n - 1, now, last, heldSince);
      if Pressed(now.controls, last, table[n - 1].index) then before[table[n - 1].index := now.tick] else before
  }

  class Ui {
    const table: seq<Mapping>
    const mapLongPress: bool
    var heldSince: seq<nat>
    var lastControls: bv16
    var events: seq<Event>

    ghost predicate Valid()
      reads this
    {
      IsTable(table) && |heldSince| == 16
    }

    constructor (t: seq<Mapping>, mapLong: bool)
      requires IsTable(t)
      ensures Valid() && table == t && mapLongPress == mapLong
      ensures events == [] && lastControls == 0 && heldSince == seq(16, _ => 0)
    {
      table, mapLongPress := t, mapLong;
      heldSince, lastControls, events := seq(16, _ => 0), 0, [];
    }

    /** One turn of the loop over the mapped controls. */
    method EmitEvent(m: Mapping, now: Snapshot, lastButtons: bv16)
      requires Valid() && m.index < 16
      modifies this`events
      ensures events == old(events) + ReleaseEvent(m, now, lastButtons, heldSince, mapLongPress)
    {
      var edges := now.controls ^ lastButtons;
      var bit := Bit(m.index);
      var bi := BitIndex(bit);
      SingleBit(m.index);
      HighestOfBit(m.index, bi);
      var nowDown := now.controls & bit != 0;
      ReleasedMask(now.controls, lastButtons, m.index);
      hide Bit, IsDown, Released, Shifted;
      if edges & bit != 0 && !nowDown {
        var ev := if Held(now.tick, heldSince[bi]) >= LONG_PRESS_TICKS then LongRelease else Press;
        var out := if mapLongPress then (if ev == LongRelease then LongPress else Press) else ev;
        events := events + [ButtonEvent(m.control, out)];
      }
    }

    /** The event part of `dispatch_custom_ui`. */
    method EmitEvents(now: Snapshot, lastButtons: bv16)
      requires Valid()
      modifies this`events
      ensures Valid()
      ensures events == old(events) + ReleaseEvents(table, |table|, now, lastButtons, heldSince, mapLongPress)
                      + EncoderEvents(now.encoders)
    {
      hide ReleaseEvent;
      assert old(events) + [] == old(events);
      for i := 0 to |table|
        invariant Valid() && events == old(events) + ReleaseEvents(table, i, now, lastButtons, heldSince, mapLongPress)
      {
        EmitEvent(table[i], now, lastButtons);
      }
      if now.encoders.0 != 0 {
        events := events + [EncoderEvent(0, now.encoders.0)];
      }
      if now.encoders.1 != 0 {
        events := events + [EncoderEvent(1, now.encoders.1)];
      }
    }

    /** One turn of the loop of `customUi`. */
    method TrackControl(m: Mapping, now: Snapshot, lastButtons: bv16)
      requires Valid() && m.index < 16
      modifies this`heldSince
      ensures Valid()
      ensures heldSince == if Pressed(now.controls, lastButtons, m.index) then old(heldSince)[m.index := now.tick] else old(heldSince)
    {
      var edges := now.controls ^ lastButtons;
      var bit := Bit(m.index);
      var nowDown := now.controls & bit != 0;
      var bi := BitIndex(bit);
      SingleBit(m.index);
      HighestOfBit(m.index, bi);
      PressedMask(now.controls, lastButtons, m.index);
      hide Bit, IsDown, Pressed, Shifted;
      if edges & bit != 0 && nowDown {
        heldSince := heldSince[bi := now.tick];
      }
    }

    /** `customUi`: remembers when a control went down. */
    method TrackControls(now: Snapshot, lastButtons: bv16)
      requires Valid()
      modifies this`heldSince, this`lastControls
      ensures Valid() && lastControls == now.controls
      ensures heldSince == HeldAfter(table, |table|, now, lastButtons, old(heldSince))
    {
      for i := 0 to |table|
        invariant Valid() && heldSince == HeldAfter(table, i, now, lastButtons, old(heldSince))
      {
        hide Pressed;
        TrackControl(table[i], now, lastButtons);
      }
      lastControls := now.controls;
    }

    /** `dispatch_custom_ui`: events first, then the bookkeeping, so that a release is timed from the press before it. */
    method Dispatch(now: Snapshot, lastButtons: bv16)
      requires Valid()
      modifies this`events, this`heldSince, this`lastControls
      ensures Valid() && lastControls == now.controls
      ensures events == old(events) + ReleaseEvents(table, |table|, now, lastButtons, old(heldSince), mapLongPress)
                      + EncoderEvents(now.encoders)
      ensures heldSince == HeldAfter(table, |table|, now, lastButtons, old(heldSince))
    {
      EmitEvents(now, lastButtons);
      TrackControls(now, lastButtons);
    }
  }

  // ---- Runs -------------------------------------------------------------------------------------

  /** The controls before snapshot k of a run that starts with nothing held. */
  function Before(run: seq<Snapshot>, k: nat): bv16
    requires k <= |run|
  {
    if k == 0 then 0 else run[k - 1].controls
  }

  predicate PressedAt(run: seq<Snapshot>, index: nat, k: nat)
    requires index < 16 && k < |run|
  {
    Pressed(run[k].controls, Before(run, k), index)
  }

  predicate ReleasedAt(run: seq<Snapshot>, index: nat, k: nat)
    requires index < 16 && k < |run|
  {
    Released(run[k].controls, Before(run, k), index)
  }

  /** The tick of the last press among the first n snapshots, 0 if there is none. */
  function PressTick(run: seq<Snapshot>, index: nat, n: nat): nat
    requires index < 16 && n <= |run|
  {
    if n == 0 then 0 else if PressedAt(run, index, n - 1) then run[n - 1].tick else PressTick(run, index, n - 1)
  }

  /** What a run of n snapshots should give for one control: an event for each release, by the ticks since the press. */
  function EventsOf(run: seq<Snapshot>, m: Mapping, mapLongPress: bool, n: nat): seq<Event>
    requires m.index < 16 && n <= |run|
  {
    if n == 0 then []
    else EventsOf(run, m, mapLongPress, n - 1) + EventAt(run, m, mapLongPress, n - 1)
  }

  function EventAt(run: seq<Snapshot>, m: Mapping, mapLongPress: bool, k: nat): seq<Event>
    requires m.index < 16 && k < |run|
  {
    if ReleasedAt(run, m.index, k) then [ButtonEvent(m.control, Classify(Held(run[k].tick, PressTick(run, m.index, k)), mapLongPress))]
    else []
  }

  function Presses(run: seq<Snapshot>, index: nat, n: nat): nat
    requires index < 16 && n <= |run|
  {
    if n == 0 then 0 else Presses(run, index, n - 1) + if PressedAt(run, index, n - 1) then 1 else 0
  }

  /** The events of one control in a log. */
  function Of(events: seq<Event>, control: nat): seq<Event> {
    if events == [] then []
    else
      var last := events[|events| - 1];
      Of(events[..|events| - 1], control) + if last.ButtonEvent? && last.control == control then [last] else []
  }

  lemma {:induction false} OfAppend(a: seq<Event>, b: seq<Event>, control: nat)
    ensures Of(a + b, control) == Of(a, control) + Of(b, control)
    decreases b
  {
    if b == [] {
      assert a + b == a;
      assert Of(a, control) + [] == Of(a, control);
    } else {
      assert (a + b)[..|a + b| - 1] == a + b[..|b| - 1];
      OfAppend(a, b[..|b| - 1], control);
    }
  }

  lemma OfOne(e: Event, control: nat)
    ensures Of([e], control) == if e.ButtonEvent? && e.control == control then [e] else []
  {
    assert [e][..0] == [];
  }

  lemma OfEncoders(encoders: (int, int), control: nat)
    ensures Of(EncoderEvents(encoders), control) == []
  {
    OfOne(EncoderEvent(0, encoders.0), control);
    OfOne(EncoderEvent(1, encoders.1), control);
    OfAppend(if encoders.0 != 0 then [EncoderEvent(0, encoders.0)] else [],
             if encoders.1 != 0 then [EncoderEvent(1, encoders.1)] else [], control);
  }

  lemma NoEvents(control: nat)
    ensures Of([], control) == []
  {
  }

  lemma OfRelease(m: Mapping, now: Snapshot, last: bv16, heldSince: seq<nat>, mapLongPress: bool, control: nat)
    requires m.index < 16 && |heldSince| == 16
    ensures Of(ReleaseEvent(m, now, last, heldSince, mapLongPress), control)
         == if m.control == control then ReleaseEvent(m, now, last, heldSince, mapLongPress) else []
  {
    hide Released, Classify;
    var e := ReleaseEvent(m, now, last, heldSince, mapLongPress);
    if e != [] {
      OfOne(e[0], control);
      assert e == [e[0]];
    }
  }

  /** Among the events of a snapshot, a control finds exactly its own. */
  lemma {:induction false} OfReleases(table: seq<Mapping>, n: nat, now: Snapshot, last: bv16, heldSince: seq<nat>, mapLongPress: bool, i: nat)
    requires IsTable(table) && n <= |table| && |heldSince| == 16 && i < |table|
    ensures Of(ReleaseEvents(table, n, now, last, heldSince, mapLongPress), table[i].control)
         == if i < n then ReleaseEvent(table[i], now, last, heldSince, mapLongPress) else []
    decreases n
  {
    hide Released, Classify, Of, ReleaseEvent;
    if n == 0 {
      NoEvents(table[i].control);
    } else {
      var e := ReleaseEvent(table[n - 1], now, last, heldSince, mapLongPress);
      OfReleases(table, n - 1, now, last, heldSince, mapLongPress, i);
      OfAppend(ReleaseEvents(table, n - 1, now, last, heldSince, mapLongPress), e, table[i].control);
      OfRelease(table[n - 1], now, last, heldSince, mapLongPress, table[i].control);
      if i == n - 1 {
        assert [] + e == e;
      }
    }
  }

  /** A snapshot moves the press tick of exactly the controls that go down. */
  lemma {:induction false} HeldOf(table: seq<Mapping>, n: nat, now: Snapshot, last: bv16, heldSince: seq<nat>, i: nat)
    requires IsTable(table) && n <= |table| && |heldSince| == 16 && i < |table|
    ensures HeldAfter(table, n, now, last, heldSince)[table[i].index]
         == if i < n && Pressed(now.controls, last, table[i].index) then now.tick else heldSince[table[i].index]
    decreases n
  {
    hide Pressed;
    if n > 0 {
      HeldOf(table, n - 1, now, last, heldSince, i);
    }
  }

  /** The events of controls earlier in the table come first. */
  lemma {:induction false} EarlierControlsFirst(table: seq<Mapping>, i: nat, n: nat, now: Snapshot, last: bv16, heldSince: seq<nat>, mapLongPress: bool)
    requires IsTable(table) && i <= n <= |table| && |heldSince| == 16
    ensures ReleaseEvents(table, i, now, last, heldSince, mapLongPress) <= ReleaseEvents(table, n, now, last, heldSince, mapLongPress)
    decreases n
  {
    hide ReleaseEvent;
    if i < n {
      EarlierControlsFirst(table, i, n - 1, now, last, heldSince, mapLongPress);
    }
  }

  // ---- What an event says -----------------------------------------------------------------------

  /** The controls are the bits of the mask, lowest first. */
  lemma BitsAre()
    ensures Bit(0) == 0x1 && Bit(1) == 0x2 && Bit(2) == 0x4 && Bit(3) == 0x8
    ensures Bit(4) == 0x10 && Bit(5) == 0x20 && Bit(6) == 0x40 && Bit(7) == 0x80
    ensures Bit(8) == 0x100 && Bit(9) == 0x200 && Bit(10) == 0x400 && Bit(11) == 0x800
    ensures Bit(12) == 0x1000 && Bit(13) == 0x2000 && Bit(14) == 0x4000 && Bit(15) == 0x8000
  {
  }

  /** A control that is down went down at some snapshot, has been down since, and the tick of that one is remembered. */
  lemma {:induction false} PressTickIs(run: seq<Snapshot>, index: nat, n: nat) returns (j: nat)
    requires index < 16 && n <= |run| && IsDown(Before(run, n), index)
    ensures j < n && !IsDown(Before(run, j), index) && PressTick(run, index, n) == run[j].tick
    ensures forall i :: j <= i < n ==> IsDown(run[i].controls, index)
    decreases n
  {
    NothingDown(index);
    hide IsDown;
    if PressedAt(run, index, n - 1) {
      j := n - 1;
    } else {
      j := PressTickIs(run, index, n - 1);
    }
  }

  /** A control gives no event but on release, and then one: a short press below 8333 ticks since it went down, else a long
      press or release. */
  lemma EventAtIs(run: seq<Snapshot>, m: Mapping, mapLongPress: bool, k: nat)
    requires m.index < 16 && k < |run|
    ensures var was, now := IsDown(Before(run, k), m.index), IsDown(run[k].controls, m.index);
      if was && !now then
        exists j :: 0 <= j < k && HeldFrom(run, m.index, j, k)
          && EventAt(run, m, mapLongPress, k) == [ButtonEvent(m.control,
               if (run[k].tick - run[j].tick) % 0x1_0000_0000_0000_0000 < 8333 then Press
               else if mapLongPress then LongPress else LongRelease)]
      else EventAt(run, m, mapLongPress, k) == []
  {
    hide IsDown;
    if ReleasedAt(run, m.index, k) {
      var j := PressTickIs(run, m.index, k);
      assert HeldFrom(run, m.index, j, k);
    }
  }

  /** The control went down at snapshot j and was down up to snapshot k. */
  predicate HeldFrom(run: seq<Snapshot>, index: nat, j: nat, k: nat)
    requires index < 16 && j < k <= |run|
  {
    !IsDown(Before(run, j), index) && forall i :: j <= i < k ==> IsDown(run[i].controls, index)
  }

  /** A control is down where its bit of the mask is set. */
  lemma DownIs(controls: bv16, index: nat)
    requires index < 16
    ensures IsDown(controls, index) <==> controls & Bit(index) != 0
  {
  }

  /** The turns of one encoder in a log. */
  function TurnsOf(events: seq<Event>, encoder: nat): seq<int> {
    if events == [] then []
    else
      var last := events[|events| - 1];
      TurnsOf(events[..|events| - 1], encoder) + if last.EncoderEvent? && last.encoder == encoder then [last.delta] else []
  }

  lemma {:induction false} TurnsAppend(a: seq<Event>, b: seq<Event>, encoder: nat)
    ensures TurnsOf(a + b, encoder) == TurnsOf(a, encoder) + TurnsOf(b, encoder)
    decreases b
  {
    if b == [] {
      assert a + b == a;
      assert TurnsOf(a, encoder) + [] == TurnsOf(a, encoder);
    } else {
      assert (a + b)[..|a + b| - 1] == a + b[..|b| - 1];
      TurnsAppend(a, b[..|b| - 1], encoder);
    }
  }

  lemma {:induction false} NoTurns(events: seq<Event>, encoder: nat)
    requires forall k :: 0 <= k < |events| ==> events[k].ButtonEvent?
    ensures TurnsOf(events, encoder) == []
    decreases events
  {
    if events != [] {
      NoTurns(events[..|events| - 1], encoder);
    }
  }

  lemma {:induction false} ReleasesAreButtons(table: seq<Mapping>, n: nat, now: Snapshot, last: bv16, heldSince: seq<nat>, mapLongPress: bool)
    requires IsTable(table) && n <= |table| && |heldSince| == 16
    ensures forall e :: e in ReleaseEvents(table, n, now, last, heldSince, mapLongPress) ==> e.ButtonEvent?
    decreases n
  {
    if n > 0 {
      hide Released, Classify;
      ReleasesAreButtons(table, n - 1, now, last, heldSince, mapLongPress);
    }
  }

  lemma TurnOne(e: Event, encoder: nat)
    ensures TurnsOf([e], encoder) == if e.EncoderEvent? && e.encoder == encoder then [e.delta] else []
  {
    assert [e][..0] == [];
  }

  /** The turns of an encoder in a run, the snapshots without a turn left out. */
  function Turned(run: seq<Snapshot>, encoder: nat, n: nat): seq<int>
    requires n <= |run|
  {
    if n == 0 then []
    else
      var delta := if encoder == 0 then run[n - 1].encoders.0 else run[n - 1].encoders.1;
      Turned(run, encoder, n - 1) + if delta != 0 then [delta] else []
  }

  lemma TurnsOfSnapshot(encoders: (int, int))
    ensures TurnsOf(EncoderEvents(encoders), 0) == if encoders.0 != 0 then [encoders.0] else []
    ensures TurnsOf(EncoderEvents(encoders), 1) == if encoders.1 != 0 then [encoders.1] else []
  {
    var a := if encoders.0 != 0 then [EncoderEvent(0, encoders.0)] else [];
    var b := if encoders.1 != 0 then [EncoderEvent(1, encoders.1)] else [];
    forall e: nat | e < 2 ensures TurnsOf(EncoderEvents(encoders), e) == TurnsOf(a, e) + TurnsOf(b, e) {
      TurnsAppend(a, b, e);
      TurnOne(EncoderEvent(0, encoders.0), e);
      TurnOne(EncoderEvent(1, encoders.1), e);
    }
    TurnOne(EncoderEvent(0, encoders.0), 0);
    TurnOne(EncoderEvent(1, encoders.1), 0);
    TurnOne(EncoderEvent(0, encoders.0), 1);
    TurnOne(EncoderEvent(1, encoders.1), 1);
  }

  lemma TurnsDispatched(table: seq<Mapping>, run: seq<Snapshot>, k: nat, events: seq<Event>, heldSince: seq<nat>, mapLongPress: bool, e: nat)
    requires IsTable(table) && k < |run| && |heldSince| == 16 && e < 2
    requires TurnsOf(events, e) == Turned(run, e, k)
    ensures TurnsOf(events + ReleaseEvents(table, |table|, run[k], Before(run, k), heldSince, mapLongPress)
                    + EncoderEvents(run[k].encoders), e)
         == Turned(run, e, k + 1)
  {
    hide ReleaseEvents, EncoderEvents, TurnsOf;
    var releases := ReleaseEvents(table, |table|, run[k], Before(run, k), heldSince, mapLongPress);
    ReleasesAreButtons(table, |table|, run[k], Before(run, k), heldSince, mapLongPress);
    NoTurns(releases, e);
    TurnsAppend(events + releases, EncoderEvents(run[k].encoders), e);
    TurnsAppend(events, releases, e);
    TurnsOfSnapshot(run[k].encoders);
    assert Turned(run, e, k) + [] == Turned(run, e, k);
  }

  /** Runs the dispatcher over snapshots, each with the one before as its last buttons. Every mapped control gets
      exactly one event per release, classified by the time since the press that began the hold, and every encoder its
      turns. */
  method RunUi(table: seq<Mapping>, run: seq<Snapshot>, mapLongPress: bool) returns (events: seq<Event>)
    requires IsTable(table)
    ensures forall i :: 0 <= i < |table| ==> Of(events, table[i].control) == EventsOf(run, table[i], mapLongPress, |run|)
    ensures TurnsOf(events, 0) == Turned(run, 0, |run|) && TurnsOf(events, 1) == Turned(run, 1, |run|)
  {
    hide ReleaseEvents, HeldAfter, EncoderEvents, Pressed, Released, Classify, Turned, TurnsOf, Of, EventsOf, PressTick;
    NothingYet(table, run, mapLongPress);
    var ui := new Ui(table, mapLongPress);
    for k := 0 to |run|
      invariant ui.Valid() && ui.table == table && ui.mapLongPress == mapLongPress && ui.lastControls == Before(run, k)
      invariant forall i :: 0 <= i < |table| ==> ui.heldSince[table[i].index] == PressTick(run, table[i].index, k)
      invariant forall i :: 0 <= i < |table| ==> Of(ui.events, table[i].control) == EventsOf(run, table[i], mapLongPress, k)
      invariant TurnsOf(ui.events, 0) == Turned(run, 0, k) && TurnsOf(ui.events, 1) == Turned(run, 1, k)
    {
      ghost var events0, held0 := ui.events, ui.heldSince;
      ui.Dispatch(run[k], ui.lastControls);
      forall i | 0 <= i < |table|
        ensures ui.heldSince[table[i].index] == PressTick(run, table[i].index, k + 1)
        ensures Of(ui.events, table[i].control) == EventsOf(run, table[i], mapLongPress, k + 1)
      {
        DispatchedOne(table, i, run, k, events0, held0, mapLongPress);
      }
      TurnsDispatched(table, run, k, events0, held0, mapLongPress, 0);
      TurnsDispatched(table, run, k, events0, held0, mapLongPress, 1);
    }
    events := ui.events;
  }

  lemma NothingYet(table: seq<Mapping>, run: seq<Snapshot>, mapLongPress: bool)
    requires IsTable(table)
    ensures TurnsOf([], 0) == Turned(run, 0, 0) && TurnsOf([], 1) == Turned(run, 1, 0)
    ensures forall i :: 0 <= i < |table| ==>
      Of([], table[i].control) == EventsOf(run, table[i], mapLongPress, 0) && PressTick(run, table[i].index, 0) == 0
  {
  }

  lemma DispatchedOne(table: seq<Mapping>, i: nat, run: seq<Snapshot>, k: nat, events: seq<Event>, heldSince: seq<nat>, mapLongPress: bool)
    requires IsTable(table) && i < |table| && k < |run| && |heldSince| == 16
    requires heldSince[table[i].index] == PressTick(run, table[i].index, k)
    requires Of(events, table[i].control) == EventsOf(run, table[i], mapLongPress, k)
    ensures HeldAfter(table, |table|, run[k], Before(run, k), heldSince)[table[i].index] == PressTick(run, table[i].index, k + 1)
    ensures Of(events + ReleaseEvents(table, |table|, run[k], Before(run, k), heldSince, mapLongPress) + EncoderEvents(run[k].encoders),
               table[i].control)
         == EventsOf(run, table[i], mapLongPress, k + 1)
  {
    hide ReleaseEvents, HeldAfter, EncoderEvents, Pressed, Released, Classify, Of;
    var releases, control := ReleaseEvents(table, |table|, run[k], Before(run, k), heldSince, mapLongPress), table[i].control;
    HeldOf(table, |table|, run[k], Before(run, k), heldSince, i);
    OfReleases(table, |table|, run[k], Before(run, k), heldSince, mapLongPress, i);
    OfEncoders(run[k].encoders, control);
    OfAppend(events + releases, EncoderEvents(run[k].encoders), control);
    OfAppend(events, releases, control);
  }

  /** Over any run from nothing held, a control has as many events as presses, less one if it is still held. */
  lemma {:induction false} EventsMatchPresses(run: seq<Snapshot>, m: Mapping, mapLongPress: bool, n: nat)
    requires m.index < 16 && n <= |run|
    ensures |EventsOf(run, m, mapLongPress, n)| + (if IsDown(Before(run, n), m.index) then 1 else 0) == Presses(run, m.index, n)
    decreases n
  {
    if n > 0 {
      EventsMatchPresses(run, m, mapLongPress, n - 1);
    } else {
      NothingDown(m.index);
    }
  }

  lemma NothingDown(index: nat)
    requires index < 16
    ensures !IsDown(0, index)
  {
  }
}
