/** The calendar endpoints of the appointment service
    (appointment-service/main.py): a vet's week of slots with their booking
    state, the free slots of one day, and the "first five free slots per
    vet" search. Dates and their weekdays (computed with `datetime` in the
    source) and "today" are parameters. */
module Calendar {
  import opened Basics
  import opened TimeOfDay
  import opened Slots
  import opened Appointments

  datatype Weekday = MON | TUE | WED | THU | FRI | SAT | SUN

  /** `working_days = ["MON", "TUE", "WED", "THU", "FRI"]`. */
  predicate IsWorkingDay(d: Weekday) {
    d.MON? || d.TUE? || d.WED? || d.THU? || d.FRI?
  }

  /** A slot as the calendar reports it. */
  datatype TimeSlot = TimeSlot(
    time: string,
    endTime: string,
    available: bool,
    appointmentId: Option<int>,
    petName: Option<string>,
    appointmentType: Option<string>)

  datatype CalendarDay = CalendarDay(
    date: string,
    dayOfWeek: Weekday,
    slots: seq<TimeSlot>,
    totalSlots: int,
    bookedSlots: int,
    availableSlots: int)

  /** The slots of every working day: 09:00 to 17:00 by 30 minutes. */
  function WorkdaySlots(): (r: seq<Slot>)
    ensures |r| == 16
    ensures forall s :: s in r ==> IsMinute(s.start) && IsMinute(s.end)
  {
    TimeSlots(WorkingStart, WorkingEnd, SlotDuration)
  }

  /** Slot `k` of the working day covers the `k`-th half hour from 09:00. */
  lemma WorkdaySlotAt(k: int)
    requires 0 <= k < 16
    ensures WorkdaySlots()[k] == Slot(WorkingStart + k * SlotDuration, WorkingStart + (k + 1) * SlotDuration)
  {
  }

  /** A slot is booked when its printed start time is that of a live
      appointment for the vet and date: the source compares the strings, so
      an appointment stored as `9:00` does not book the `09:00` slot. */
  predicate IsBooked(db: Table, vetId: int, date: string, s: Slot) {
    IsMinute(s.start) && SlotTaken(db, vetId, date, FormatTime(s.start))
  }

  /** `{appt.time: appt for appt in booked}` keeps, for each start time, the
      last matching row: the live appointment reported for a slot. */
  function LastBooking(db: Table, vetId: int, date: string, time: string): (r: Option<Appointment>)
    ensures r.Some? <==> SlotTaken(db, vetId, date, time)
    ensures r.Some? ==> r.value in db && Occupies(r.value, vetId, date, time)
    ensures r.Some? ==> forall i | 0 <= i < |db| && Occupies(db[i], vetId, date, time) ::
                          db[i] == r.value || exists j | i < j < |db| :: db[j] == r.value
  {
    if |db| == 0 then None
    else
      var last := db[|db| - 1];
      if Occupies(last, vetId, date, time) then Some(last)
      else
        var r := LastBooking(db[..|db| - 1], vetId, date, time);
        assert forall i | 0 <= i < |db| - 1 :: db[..|db| - 1][i] == db[i];
        r
  }

  /** One slot of the day, filled in from the appointment holding it. */
  function SlotView(db: Table, vetId: int, date: string, s: Slot): (v: TimeSlot)
    requires IsMinute(s.start) && IsMinute(s.end)
    ensures v.time == FormatTime(s.start)
    ensures v.available <==> !SlotTaken(db, vetId, date, v.time)
    ensures v.available ==>
              v.endTime == FormatTime(s.end)
              && v.appointmentId.None? && v.petName.None? && v.appointmentType.None?
    ensures !v.available ==>
              var a := LastBooking(db, vetId, date, v.time).value;
              && v.appointmentId == Some(a.id)
              && v.petName == a.petName
              && v.appointmentType == Some(a.appointmentType)
              && v.endTime == (if a.endTime.Some? && a.endTime.value != "" then a.endTime.value
                               else FormatTime(s.end))
  {
    var time := FormatTime(s.start);
    match LastBooking(db, vetId, date, time)
    case None => TimeSlot(time, FormatTime(s.end), true, None, None, None)
    case Some(a) =>
      var end := if a.endTime.Some? && a.endTime.value != "" then a.endTime.value else FormatTime(s.end);
      TimeSlot(time, end, false, Some(a.id), a.petName, Some(a.appointmentType))
  }

  function SlotViews(db: Table, vetId: int, date: string, grid: seq<Slot>): (r: seq<TimeSlot>)
    requires forall s :: s in grid ==> IsMinute(s.start) && IsMinute(s.end)
    ensures |r| == |grid|
    ensures forall k :: 0 <= k < |grid| ==> r[k] == SlotView(db, vetId, date, grid[k])
  {
    if |grid| == 0 then []
    else [SlotView(db, vetId, date, grid[0])] + SlotViews(db, vetId, date, grid[1..])
  }

  /** `len([s for s in slots if not s.available])`. */
  function CountBooked(slots: seq<TimeSlot>): (n: nat)
    ensures n <= |slots|
  {
    if |slots| == 0 then 0
    else (if slots[0].available then 0 else 1) + CountBooked(slots[1..])
  }

  /** One day of `get_vet_calendar`. A weekend day has no slots; a working
      day lists the 16 slots, each unavailable exactly when a live
      appointment for this vet and date starts at that slot's time, and the
      counts add up. */
  function BuildDay(db: Table, vetId: int, date: string, day: Weekday): (r: CalendarDay)
    ensures r.date == date && r.dayOfWeek == day
    ensures !IsWorkingDay(day) ==>
              r.slots == [] && r.totalSlots == 0 && r.bookedSlots == 0 && r.availableSlots == 0
    ensures IsWorkingDay(day) ==>
              && r.totalSlots == |r.slots| == 16
              && r.totalSlots == r.bookedSlots + r.availableSlots
              && r.bookedSlots == CountBooked(r.slots)
              && r.slots == SlotViews(db, vetId, date, WorkdaySlots())
  {
    if !IsWorkingDay(day) then CalendarDay(date, day, [], 0, 0, 0)
    else
      var slots := SlotViews(db, vetId, date, WorkdaySlots());
      var booked := CountBooked(slots);
      CalendarDay(date, day, slots, |slots|, booked, |slots| - booked)
  }

  /** Slot `k` of a working day starts at 09:00 plus `k` half hours and is
      unavailable exactly when a live appointment of this vet on this date
      starts at that time. */
  lemma BuildDaySlots(db: Table, vetId: int, date: string, day: Weekday, k: int)
    requires IsWorkingDay(day) && 0 <= k < 16
    ensures var slot := BuildDay(db, vetId, date, day).slots[k];
            && slot.time == FormatTime(WorkingStart + k * SlotDuration)
            && (!slot.available <==> SlotTaken(db, vetId, date, slot.time))
            && (!slot.available <==> IsBooked(db, vetId, date, WorkdaySlots()[k]))
  {
    WorkdaySlotAt(k);
  }

  /** `get_vet_calendar`: one `BuildDay` per requested date, in order. */
  function VetCalendar(db: Table, vetId: int, days: seq<(string, Weekday)>): (r: seq<CalendarDay>)
    ensures |r| == |days|
    ensures forall i :: 0 <= i < |days| ==> r[i] == BuildDay(db, vetId, days[i].0, days[i].1)
  {
    if |days| == 0 then []
    else [BuildDay(db, vetId, days[0].0, days[0].1)] + VetCalendar(db, vetId, days[1..])
  }

  /** The free slots of a day, in generation order. */
  function FreeSlots(db: Table, vetId: int, date: string): seq<Slot> {
    Filter(WorkdaySlots(), s => !IsBooked(db, vetId, date, s))
  }

  datatype AvailableSlots = AvailableSlots(vetId: int, date: string, slots: seq<Slot>, totalAvailable: int)

  /** `get_available_slots`: the generated slots whose start time no live
      appointment of the vet on that date holds, in order, with their count.
      The weekday is not consulted. */
  function GetAvailableSlots(db: Table, vetId: int, date: string): (r: AvailableSlots)
    ensures r.vetId == vetId && r.date == date
    ensures forall s :: s in r.slots <==> s in WorkdaySlots() && !IsBooked(db, vetId, date, s)
    ensures SubsequenceOf(r.slots, WorkdaySlots())
    ensures r.totalAvailable == |r.slots|
  {
    FilterAll(WorkdaySlots(), s => !IsBooked(db, vetId, date, s));
    FilterIsSubsequence(WorkdaySlots(), s => !IsBooked(db, vetId, date, s));
    var free := FreeSlots(db, vetId, date);
    AvailableSlots(vetId, date, free, |free|)
  }

  lemma {:induction false} BookedPlusFree(db: Table, vetId: int, date: string, grid: seq<Slot>)
    requires forall s :: s in grid ==> IsMinute(s.start) && IsMinute(s.end)
    ensures CountBooked(SlotViews(db, vetId, date, grid))
            + |Filter(grid, s => !IsBooked(db, vetId, date, s))| == |grid|
  {
    if |grid| > 0 {
      BookedPlusFree(db, vetId, date, grid[1..]);
      var views := SlotViews(db, vetId, date, grid);
      assert views[1..] == SlotViews(db, vetId, date, grid[1..]);
      var t := FormatTime(grid[0].start);
      assert views[0].available <==> LastBooking(db, vetId, date, t).None?;
    }
  }

  /** The two views agree: on a working day the free-slot endpoint reports
      as many slots as the calendar counts available ... */
  lemma AvailableCountAgrees(db: Table, vetId: int, date: string, day: Weekday)
    requires IsWorkingDay(day)
    ensures GetAvailableSlots(db, vetId, date).totalAvailable == BuildDay(db, vetId, date, day).availableSlots
  {
    BookedPlusFree(db, vetId, date, WorkdaySlots());
  }

  /** ... and they are the slots the calendar marks available. */
  lemma AvailableSlotsAgree(db: Table, vetId: int, date: string, day: Weekday, k: int)
    requires IsWorkingDay(day) && 0 <= k < 16
    ensures BuildDay(db, vetId, date, day).slots[k].available <==>
            WorkdaySlots()[k] in GetAvailableSlots(db, vetId, date).slots
  {
    BuildDaySlots(db, vetId, date, day, k);
  }

  // ---------------------------------------------------------------------
  // Search across vets
  // ---------------------------------------------------------------------

  const MaxSlotsPerVet := 5
  const AllVets: seq<int> := [1, 2, 3, 4, 5, 6]

  datatype VetAvailability = VetAvailability(vetId: int, date: string, slots: seq<Slot>, totalAvailable: int)

  datatype SearchResult = SearchResult(searchDate: string, appointmentType: Option<string>, results: seq<VetAvailability>)

  /** `[1, 2, 3, 4, 5, 6] if not vet_id else [vet_id]`: an absent vet, and
      also vet 0 (falsy), means all six. */
  function CandidateVets(vetId: Option<int>): (r: seq<int>)
    ensures vetId.None? || vetId == Some(0) ==> r == AllVets
    ensures vetId.Some? && vetId.value != 0 ==> r == [vetId.value]
  {
    if vetId.None? || vetId.value == 0 then AllVets else [vetId.value]
  }

  predicate HasFreeSlot(db: Table, date: string, vetId: int) {
    |FreeSlots(db, vetId, date)| > 0
  }

  function VetEntry(db: Table, date: string, vetId: int): VetAvailability {
    var free := FreeSlots(db, vetId, date);
    VetAvailability(vetId, date, free[..Min(MaxSlotsPerVet, |free|)], |free|)
  }

  function VetIds(rs: seq<VetAvailability>): (ids: seq<int>)
    ensures |ids| == |rs|
    ensures forall i :: 0 <= i < |rs| ==> ids[i] == rs[i].vetId
  {
    if |rs| == 0 then [] else [rs[0].vetId] + VetIds(rs[1..])
  }

  /** The per-vet loop: one entry for each vet that has a free slot, in the
      order the vets were listed. */
  function ScanVets(db: Table, date: string, vets: seq<int>): (r: seq<VetAvailability>)
    ensures VetIds(r) == Filter(vets, v => HasFreeSlot(db, date, v))
    ensures forall i :: 0 <= i < |r| ==>
              HasFreeSlot(db, date, r[i].vetId) && r[i] == VetEntry(db, date, r[i].vetId)
  {
    var ids := Filter(vets, v => HasFreeSlot(db, date, v));
    var r := Map(ids, v => VetEntry(db, date, v));
    assert VetIds(r) == ids;
    forall i | 0 <= i < |r|
      ensures HasFreeSlot(db, date, r[i].vetId)
    {
      FilterMembership(vets, v => HasFreeSlot(db, date, v), ids[i]);
    }
    r
  }

  /** A vet's search entry: the first `min(5, n)` of the vet's `n` free
      slots, and the full free count, which is non-zero exactly when the vet
      has a free slot (and then at least one slot is listed). */
  lemma VetEntryShape(db: Table, date: string, vetId: int)
    ensures var e := VetEntry(db, date, vetId);
            && |e.slots| <= MaxSlotsPerVet
            && |e.slots| == Min(MaxSlotsPerVet, |FreeSlots(db, vetId, date)|)
            && e.slots == FreeSlots(db, vetId, date)[..|e.slots|]
            && e.totalAvailable == GetAvailableSlots(db, vetId, date).totalAvailable
            && (e.totalAvailable > 0 <==> HasFreeSlot(db, date, vetId))
            && (HasFreeSlot(db, date, vetId) ==> |e.slots| >= 1)
  {
  }

  /** The two facts about an entry that the search result reports. */
  lemma VetEntryBounds(db: Table, date: string, vetId: int)
    ensures |VetEntry(db, date, vetId).slots| <= MaxSlotsPerVet
    ensures HasFreeSlot(db, date, vetId) ==> VetEntry(db, date, vetId).totalAvailable > 0
  {
  }

  /** `search_available_appointments`: `today` stands in for the empty or
      missing date. A vet is listed iff it has a free slot that day. */
  function SearchAvailable(db: Table, appointmentType: Option<string>, date: Option<string>,
                           vetId: Option<int>, today: string): (r: SearchResult)
    ensures r.searchDate == (if date.None? || date.value == "" then today else date.value)
    ensures r.appointmentType == appointmentType
    ensures forall v :: v in VetIds(r.results) <==>
              v in CandidateVets(vetId) && HasFreeSlot(db, r.searchDate, v)
    ensures forall i :: 0 <= i < |r.results| ==>
              |r.results[i].slots| <= MaxSlotsPerVet && r.results[i].totalAvailable > 0
    ensures r.results == ScanVets(db, r.searchDate, CandidateVets(vetId))
  {
    var searchDate := if date.None? || date.value == "" then today else date.value;
    var vets := CandidateVets(vetId);
    var results := ScanVets(db, searchDate, vets);
    FilterAll(vets, v => HasFreeSlot(db, searchDate, v));
    forall i | 0 <= i < |results|
      ensures |results[i].slots| <= MaxSlotsPerVet && results[i].totalAvailable > 0
    {
      VetEntryBounds(db, searchDate, results[i].vetId);
    }
    SearchResult(searchDate, appointmentType, results)
  }
}
