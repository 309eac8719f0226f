/** Working-day time slots (`generate_time_slots` in
    appointment-service/main.py): contiguous, fixed-length slots from the
    start of the working hours, dropping a trailing slot that would run past
    their end. Times are minutes since midnight. */
module Slots {
  import opened Basics
  import opened TimeOfDay

  datatype Slot = Slot(start: int, end: int)

  /** The hard-coded working hours and slot length of every calendar
      endpoint: 09:00 to 17:00 in 30-minute slots. */
  const WorkingStart := 540
  const WorkingEnd := 1020
  const SlotDuration := 30

  /** How many whole slots fit between `start` and `end`. */
  function SlotCount(start: int, end: int, duration: int): nat
    requires duration > 0
  {
    if end > start then (end - start) / duration else 0
  }

  /** `n` back-to-back slots of `duration` minutes from `start`. */
  function Grid(start: int, duration: int, n: nat): (r: seq<Slot>)
    ensures |r| == n
  {
    seq(n, k => Slot(start + k * duration, start + (k + 1) * duration))
  }

  /** The slots `generate_time_slots` produces, in closed form. */
  function TimeSlots(start: int, end: int, duration: int): seq<Slot>
    requires duration > 0
  {
    Grid(start, duration, SlotCount(start, end, duration))
  }

  /** `x / d` is the `n` with `n * d <= x < (n + 1) * d`. */
  lemma QuotientBetween(x: int, d: int, n: nat)
    requires d > 0 && n * d <= x < (n + 1) * d
    ensures x / d == n
  {
    var q := x / d;
    assert q * d <= x < q * d + d;
    assert (q - n) * d < d && (n - q) * d < d;
    ProductBelowFactor(q - n, d);
    ProductBelowFactor(n - q, d);
  }

  lemma QuotientBounds(x: int, d: int)
    requires d > 0 && x >= 0
    ensures (x / d) * d <= x < (x / d + 1) * d
  {
  }

  lemma ProductBelowFactor(a: int, d: int)
    requires d > 0 && a * d < d
    ensures a < 1
  {
  }

  /** `generate_time_slots`, on start and end already read as minutes. The
      loop mirrors the source: the `datetime` comparisons do not wrap at
      midnight, so neither do these. A non-positive duration never ends in
      the source and is excluded. */
  method GenerateTimeSlots(start: int, end: int, duration: int) returns (slots: seq<Slot>)
    requires duration > 0
    ensures slots == TimeSlots(start, end, duration)
  {
    slots := [];
    var current := start;
    while current < end
      invariant slots == Grid(start, duration, |slots|)
      invariant current == start + |slots| * duration
             || (current == start + (|slots| + 1) * duration && current > end)
      invariant |slots| == 0 || start + |slots| * duration <= end
      decreases end - current
    {
      var slotEnd := current + duration;
      if slotEnd <= end {
        slots := slots + [Slot(current, slotEnd)];
      }
      current := slotEnd;
    }
    var n := |slots|;
    if end > start {
      QuotientBetween(end - start, duration, n);
    }
  }

  /** The shape of the slots: each spans the duration, the first starts at
      `start`, each ends where the next begins, none runs past `end`, and one
      more would (the trailing partial slot is dropped). */
  lemma TimeSlotsShape(start: int, end: int, duration: int)
    requires duration > 0
    ensures var slots := TimeSlots(start, end, duration);
      && (forall k :: 0 <= k < |slots| ==> slots[k].end - slots[k].start == duration)
      && (|slots| > 0 ==> slots[0].start == start)
      && (forall k :: 0 <= k < |slots| - 1 ==> slots[k].end == slots[k + 1].start)
      && (forall k :: 0 <= k < |slots| ==> slots[k].end <= end)
      && (end <= start ==> slots == [])
      && (end > start ==> start + (|slots| + 1) * duration > end)
  {
    var slots := TimeSlots(start, end, duration);
    var n := |slots|;
    if end > start {
      QuotientBounds(end - start, duration);
      assert n * duration <= end - start;
      forall k | 0 <= k < n
        ensures slots[k].end <= end
      {
        assert (k + 1) * duration <= n * duration;
      }
    }
  }

  /** The working day of the calendar endpoints has 16 slots, 09:00 to
      17:00. */
  lemma WorkingDayHasSixteenSlots()
    ensures ParseTime("09:00") == Some(WorkingStart)
    ensures ParseTime("17:00") == Some(WorkingEnd)
    ensures |TimeSlots(WorkingStart, WorkingEnd, SlotDuration)| == 16
    ensures TimeSlots(WorkingStart, WorkingEnd, SlotDuration)[15].end == WorkingEnd
  {
    assert FormatTime(540) == "09:00";
    assert FormatTime(1020) == "17:00";
    ParseFormat(540);
    ParseFormat(1020);
  }
}
