/**
 * `EasyCounter`: an 8-bit ammo counter that runs from "full" to "empty" one
 * step per `tick`, upward (`increment == 1`) from `low` to `high` or
 * downward (`increment == -1`) from `high` to `low`, and picks an audio
 * track number from its state.
 *
 * Any other `increment` is accepted by `begin` but gives a counter that is
 * never empty or full, that `resetCount` leaves where it is, and that `tick`
 * moves down by one (wrapping modulo 256) on every call.
 */
module EasyCounter {
  import opened FastLed

  const COUNTER_MODE_UP: int := 1
  const COUNTER_MODE_DOWN: int := -1

  /** The mutable fields `increment`, `low`, `high` and `currentCounter`. */
  datatype CounterState = CounterState(increment: Int8, low: Byte, high: Byte, count: Byte)

  /** The track indexes fixed at construction. */
  datatype Tracks = Tracks(active0: Byte, active1: Byte, empty: Byte, reset: Byte)

  /** `isEmpty`. */
  predicate Empty(c: CounterState)
  {
    if c.increment == COUNTER_MODE_UP then c.count == c.high
    else if c.increment == COUNTER_MODE_DOWN then c.count == c.low
    else false
  }

  /** `isFull`. */
  predicate Full(c: CounterState)
  {
    if c.increment == COUNTER_MODE_UP then c.count == c.low
    else if c.increment == COUNTER_MODE_DOWN then c.count == c.high
    else false
  }

  /** A counter in one of the two modes, with its count inside `[low, high]`. */
  predicate InRange(c: CounterState)
  {
    (c.increment == COUNTER_MODE_UP || c.increment == COUNTER_MODE_DOWN) && c.low <= c.count <= c.high
  }

  /** Ticks still needed to become empty. */
  function Remaining(c: CounterState): int
  {
    if c.increment == COUNTER_MODE_UP then c.high - c.count else c.count - c.low
  }

  /**
   * `tick`: nothing when empty; otherwise one step, up in UP mode and down in
   * every other mode, modulo 256. A counter in range stays in range and comes
   * one tick closer to empty.
   */
  function Ticked(c: CounterState): (r: CounterState)
    ensures r.increment == c.increment && r.low == c.low && r.high == c.high
    ensures Empty(c) ==> r == c
    ensures !Empty(c) && c.increment == COUNTER_MODE_UP ==> r.count == U8(c.count + 1)
    ensures !Empty(c) && c.increment != COUNTER_MODE_UP ==> r.count == U8(c.count - 1)
    ensures InRange(c) ==> InRange(r)
    ensures InRange(c) && !Empty(c) ==> Remaining(r) == Remaining(c) - 1
  {
    if Empty(c) then c
    else if c.increment == COUNTER_MODE_UP then c.(count := U8(c.count + 1))
    else c.(count := U8(c.count - 1))
  }

  /**
   * `resetCount`: back to full in either mode (`low` going up, `high` going
   * down); with any other increment the count is kept.
   */
  function Reset(c: CounterState): (r: CounterState)
    ensures r.increment == c.increment && r.low == c.low && r.high == c.high
    ensures (c.increment == COUNTER_MODE_UP || c.increment == COUNTER_MODE_DOWN) ==> Full(r)
    ensures (c.increment == COUNTER_MODE_UP || c.increment == COUNTER_MODE_DOWN) && c.low <= c.high ==>
      InRange(r) && Remaining(r) == c.high - c.low
    ensures !(c.increment == COUNTER_MODE_UP || c.increment == COUNTER_MODE_DOWN) ==> r == c
  {
    var a := if c.increment == COUNTER_MODE_UP then c.(count := c.low) else c;
    if c.increment == COUNTER_MODE_DOWN then a.(count := c.high) else a
  }

  /** `begin(lowNumber, highNumber, increment)`: store the bounds and the mode, then reset. */
  function Begun(c: CounterState, lowNumber: Byte, highNumber: Byte, increment: Int8): (r: CounterState)
    ensures r.low == lowNumber && r.high == highNumber && r.increment == increment
    ensures (increment == COUNTER_MODE_UP || increment == COUNTER_MODE_DOWN) && lowNumber <= highNumber ==>
      InRange(r) && Full(r) && Remaining(r) == highNumber - lowNumber
  {
    Reset(c.(low := lowNumber, high := highNumber, increment := increment))
  }

  /** `getTrackNumber()`: the empty track, else the reset track when full, else the first active track. */
  function TrackNumber(c: CounterState, t: Tracks): (r: Byte)
    ensures Empty(c) ==> r == t.empty
    ensures !Empty(c) && Full(c) ==> r == t.reset
    ensures !Empty(c) && !Full(c) ==> r == t.active0
  {
    if Empty(c) then t.empty else if Full(c) then t.reset else t.active0
  }

  /** `getTrackNumber(index)`: as `getTrackNumber()`, except that `index == 1` selects the second active track. */
  function TrackNumberAt(c: CounterState, t: Tracks, index: int): (r: Byte)
    ensures index != 1 ==> r == TrackNumber(c, t)
    ensures index == 1 && (Empty(c) || Full(c)) ==> r == TrackNumber(c, t)
    ensures index == 1 && !Empty(c) && !Full(c) ==> r == t.active1
  {
    if Empty(c) then t.empty
    else if Full(c) then t.reset
    else if index == 1 then t.active1
    else t.active0
  }

  /** `n` calls of `tick`. */
  function Ticks(c: CounterState, n: nat): CounterState
    decreases n
  {
    if n == 0 then c else Ticks(Ticked(c), n - 1)
  }

  /** Any number of ticks keeps a counter in range. */
  lemma {:induction false} TicksStayInRange(c: CounterState, n: nat)
    requires InRange(c)
    ensures InRange(Ticks(c, n))
    ensures Ticks(c, n).low == c.low && Ticks(c, n).high == c.high && Ticks(c, n).increment == c.increment
    decreases n
  {
    if n > 0 {
      TicksStayInRange(Ticked(c), n - 1);
    }
  }

  /**
   * From a counter in range, `k` ticks (while not yet empty) move the count
   * by exactly `k` toward the empty end, and the counter is empty after
   * exactly `Remaining(c)` ticks, not before.
   */
  lemma {:induction false} TicksCount(c: CounterState, k: nat)
    requires InRange(c) && k <= Remaining(c)
    ensures var r := Ticks(c, k);
      && InRange(r)
      && r.count == (if c.increment == COUNTER_MODE_UP then c.count + k else c.count - k)
      && (Empty(r) <==> k == Remaining(c))
    decreases k
  {
    if k > 0 {
      assert !Empty(c);
      TicksCount(Ticked(c), k - 1);
    }
  }

  /** Once empty, further ticks change nothing. */
  lemma {:induction false} EmptyStaysEmpty(c: CounterState, n: nat)
    requires Empty(c)
    ensures Ticks(c, n) == c
    decreases n
  {
    if n > 0 {
      EmptyStaysEmpty(Ticked(c), n - 1);
    }
  }

  /**
   * After `begin(low, high, ±1)` with `low <= high`, the counter is full; it
   * is empty after exactly `high - low` ticks, and stays so.
   */
  lemma EmptyAfterBegin(c: CounterState, lowNumber: Byte, highNumber: Byte, increment: Int8, n: nat)
    requires increment == COUNTER_MODE_UP || increment == COUNTER_MODE_DOWN
    requires lowNumber <= highNumber
    ensures var b := Begun(c, lowNumber, highNumber, increment);
      && Full(b)
      && (n < highNumber - lowNumber ==> !Empty(Ticks(b, n)))
      && (n >= highNumber - lowNumber ==> Empty(Ticks(b, n)))
      && InRange(Ticks(b, n))
  {
    var b := Begun(c, lowNumber, highNumber, increment);
    var d := highNumber - lowNumber;
    if n <= d {
      TicksCount(b, n);
    } else {
      TicksCount(b, d);
      var e := Ticks(b, d);
      EmptyStaysEmpty(e, n - d);
      TicksSplit(b, d, n - d);
    }
  }

  /**
   * The sound the counter selects over its life: after `begin(low, high, ±1)`
   * with `low < high` and `k` ticks, `getTrackNumber()` is the reset track
   * before the first tick, an active track (the second for index 1) while
   * ammo remains, and the empty track from the `high - low`-th tick on.
   */
  lemma TrackLifecycle(c: CounterState, t: Tracks, lowNumber: Byte, highNumber: Byte, increment: Int8, k: nat)
    requires increment == COUNTER_MODE_UP || increment == COUNTER_MODE_DOWN
    requires lowNumber < highNumber
    ensures var r := Ticks(Begun(c, lowNumber, highNumber, increment), k);
      && (k == 0 ==> TrackNumber(r, t) == t.reset)
      && (0 < k < highNumber - lowNumber ==> TrackNumber(r, t) == t.active0 && TrackNumberAt(r, t, 1) == t.active1)
      && (k >= highNumber - lowNumber ==> TrackNumber(r, t) == t.empty)
  {
    var b := Begun(c, lowNumber, highNumber, increment);
    EmptyAfterBegin(c, lowNumber, highNumber, increment, k);
    if k < highNumber - lowNumber {
      TicksCount(b, k);
      TicksStayInRange(b, k);
      var r := Ticks(b, k);
      assert b.count == if increment == COUNTER_MODE_UP then lowNumber else highNumber;
      assert 0 < k ==> !Full(r);
    }
  }

  /** `a + b` ticks are `a` ticks followed by `b` ticks. */
  lemma {:induction false} TicksSplit(c: CounterState, a: nat, b: nat)
    ensures Ticks(c, a + b) == Ticks(Ticks(c, a), b)
    decreases a
  {
    if a > 0 {
      TicksSplit(Ticked(c), a - 1, b);
    }
  }

  /**
   * One `EasyCounter`. Objects of this class are statically allocated in the
   * sketch, so fields without an initialiser start at zero.
   */
  class Counter {
    const name: string
    var increment: Int8
    var low: Byte
    var high: Byte
    var currentCounter: Byte
    const activeTrackIdx: (Byte, Byte)
    const emptyTrackIdx: Byte
    const resetTrackIdx: Byte

    ghost function State(): CounterState
      reads this
    {
      CounterState(increment, low, high, currentCounter)
    }

    ghost function TrackSet(): Tracks
    {
      Tracks(activeTrackIdx.0, activeTrackIdx.1, emptyTrackIdx, resetTrackIdx)
    }

    /** `EasyCounter(label)`: no track indexes given, so they stay zero. */
    constructor (title: string)
      ensures name == title
      ensures State() == CounterState(COUNTER_MODE_DOWN, 0, 0, 0)
      ensures TrackSet() == Tracks(0, 0, 0, 0)
    {
      name := title;
      increment := COUNTER_MODE_DOWN;
      low, high, currentCounter := 0, 0, 0;
      activeTrackIdx := (0, 0);
      emptyTrackIdx, resetTrackIdx := 0, 0;
    }

    /** `EasyCounter(label, activeTracks, emptyTrack, resetTrack)`: the first two entries of `activeTracks` are copied. */
    constructor WithTracks(title: string, activeTracks: array<Byte>, emptyTrack: Byte, resetTrack: Byte)
      requires activeTracks.Length >= 2
      ensures name == title
      ensures State() == CounterState(COUNTER_MODE_DOWN, 0, 0, 0)
      ensures TrackSet() == Tracks(activeTracks[0], activeTracks[1], emptyTrack, resetTrack)
    {
      name := title;
      increment := COUNTER_MODE_DOWN;
      low, high, currentCounter := 0, 0, 0;
      activeTrackIdx := (activeTracks[0], activeTracks[1]);
      emptyTrackIdx := emptyTrack;
      resetTrackIdx := resetTrack;
    }

    method Begin(lowNumber: Byte, highNumber: Byte, inc: Int8)
      modifies this
      ensures State() == Begun(old(State()), lowNumber, highNumber, inc)
    {
      low := lowNumber;
      high := highNumber;
      increment := inc;
      var _ := ResetCount();
    }

    method Tick()
      modifies this
      ensures State() == Ticked(old(State()))
    {
      var empty := IsEmpty();
      if empty {
        return;
      }
      if increment == COUNTER_MODE_UP {
        currentCounter := U8(currentCounter + 1);
      } else {
        currentCounter := U8(currentCounter - 1);
      }
    }

    method IsEmpty() returns (empty: bool)
      ensures empty == Empty(State())
    {
      if increment == COUNTER_MODE_UP {
        return currentCounter == high;
      }
      if increment == COUNTER_MODE_DOWN {
        return currentCounter == low;
      }
      return false;
    }

    method IsFull() returns (full: bool)
      ensures full == Full(State())
    {
      if increment == COUNTER_MODE_UP {
        return currentCounter == low;
      }
      if increment == COUNTER_MODE_DOWN {
        return currentCounter == high;
      }
      return false;
    }

    method ResetCount() returns (n: Byte)
      modifies this
      ensures State() == Reset(old(State()))
      ensures n == currentCounter
    {
      if increment == COUNTER_MODE_UP {
        currentCounter := low;
      }
      if increment == COUNTER_MODE_DOWN {
        currentCounter := high;
      }
      n := currentCounter;
    }

    method GetCount() returns (n: Byte)
      ensures n == State().count
    {
      n := currentCounter;
    }

    method GetTrackNumber() returns (track: Byte)
      ensures track == TrackNumber(State(), TrackSet())
    {
      var empty := IsEmpty();
      if empty {
        return emptyTrackIdx;
      }
      var full := IsFull();
      if full {
        return resetTrackIdx;
      }
      return activeTrackIdx.0;
    }

    method GetTrackNumberAt(index: int) returns (track: Byte)
      ensures track == TrackNumberAt(State(), TrackSet(), index)
    {
      var empty := IsEmpty();
      if empty {
        return emptyTrackIdx;
      }
      var full := IsFull();
      if full {
        return resetTrackIdx;
      }
      if index == 1 {
        return activeTrackIdx.1;
      }
      return activeTrackIdx.0;
    }
  }
}
